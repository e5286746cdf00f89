# id-reader core, modelled in Dafny

This project models the decision logic of the id-reader feed reader's
backend:

- **`convertDate`** rewrites Chinese weekday and month tokens to English abbreviations. It is an ordered fold of first-occurrence string replacements (module `Utility`).
- **`fetchEntries`** is the feed fetch: the response check, the rule that skips an item without a title or a publication date, and the item-to-entry field mapping (module `FeedService`).
- **The image entity** has a SHA-256 lifecycle hook, and the image store keeps the (url, createdAt) uniqueness rule (module `Entities`).
- **Image download** covers the conditional, deduplicating `downloadImage` and the fallback chain (module `ImageService`):
  - `downloadFeedImage`;
  - `downloadImageFromFeed`;
  - `downloadFavicon`;
  - `searchAndDownloadFavicon`.
- **OPML import** is modelled as a fold of SAX open/close events over a list of top-level outlines and a `traversed` stack. It also covers the persist loop's skip and default rules (module `OpmlService`).
- **OPML export** groups stored feeds by category name. The document is modelled as the SAX events a parser reports for it, so export and import can be composed (module `OpmlService`).
- **`remap`** aligns a batch query's records with the requested ids (module `DataloaderService`).
- **`Option`, `Result` and JavaScript string truthiness** are shared by all modules (module `Wrappers`).

Everything outside the service is a parameter of the model:

- the network: a request determines its response or a throw;
- SHA-256, as a function from bytes to a hex string;
- the RSS, HTML and SAX parsers;
- WHATWG URL parsing and resolution;
- the clock that stamps `createdAt`.

The image store is a sequence of records in insertion order. A record's id is its 1-based position, and `findOne` returns the first match.

Where the written description of the system and the code disagree, the model follows the code:

- `downloadFavicon` builds `new URL('/favicon.ico', feed.link)` before its `try`, so a link it cannot resolve against throws out of `downloadFavicon` and `downloadFeedImage`. The chain can therefore raise; `DownloadFavicon` returns a `Result`.
- `downloadFeedImage` runs both strategies even when the feed's declared image was found. The favicon download's side effects on the store still happen, and the first image found wins.
- `fetchEntries` hands new entries to `persist`; it does not upsert.

## Model

| member | source | states |
|---|---|---|
| Utility.IndexOf | src/utility.ts:27 | the leftmost occurrence of the pattern, or none when it occurs nowhere |
| Utility.ReplaceFirst | src/utility.ts:27 | `replace` with a string pattern rewrites only the leftmost occurrence, and leaves a string without one unchanged |
| Utility.TableShape | src/utility.ts:1-23 | exactly 19 rows: seven weekday rows, then twelve month rows, with '一月'/'十一月' at rows 7/17 and '二月'/'十二月' at rows 8/18 |
| Utility.ApplyAllConcat | src/utility.ts:26-28 | rows are applied in table order; each row sees the output of all the rows before it |
| Utility.ApplyAllSnoc | src/utility.ts:26-28 | one pass per row: one more row is one more `replace` on the previous result |
| Utility.ApplyAllSplit | src/utility.ts:26-28 | the rows after row k see the output of the rows before it |
| Utility.LaterOccurrenceSurvives | src/utility.ts:27 | an occurrence of a key after the replaced one survives, shifted by the length change |
| Utility.KeysContainMarker | src/utility.ts:3-22 | every key contains '週' or '月' |
| Utility.ValuesShareNoCharWithKeys | src/utility.ts:3-22 | no inserted English value contains a character of any key, so no row rewrites text an earlier row inserted |
| Utility.KeysOfReplacementsNotAscii | src/utility.ts:3-22 | every key character lies outside ASCII |
| Utility.ReplacementsWellShaped | src/utility.ts:1-23 | the table has distinct weekday rows, distinct month rows ending in '月', and ASCII values |
| Utility.NoMarkerIsIdentity | src/utility.ts:25-30 | a string with neither '週' nor '月' comes back unchanged |
| Utility.NoKeyIsIdentity | src/utility.ts:25-30 | a string in which no key occurs comes back unchanged |
| Utility.AsciiUnchanged | src/utility.spec.ts:6 | an all-ASCII date, such as the English one of the test, comes back unchanged |
| Utility.WeekdayAndMonthConverted | src/utility.ts:25-30 | a date string that starts with a weekday token, followed by ASCII text, a month token from '一月' to '十月' and ASCII text, becomes the same string with both tokens replaced by their abbreviations |
| Utility.ChineseDateConverted | src/utility.spec.ts:5 | the test's '週六, 14 六月 2025 04:51:00 +0000' becomes 'Sat, 14 Jun 2025 04:51:00 +0000' |
| Utility.TwoDigitRowsOfReplacements | src/utility.ts:11-12 | rows 17 and 18 are '十' followed by the keys of rows 7 and 8 |
| Utility.NovemberMisread | src/utility.ts:21 | '十一月' in ASCII text becomes '十Jan' |
| Utility.DecemberMisread | src/utility.ts:22 | '十二月' in ASCII text becomes '十Feb' |
| Utility.ReplacementsNotSafelyOrdered | src/utility.ts:11-22 | the declared table is not safely ordered: every character of '一月' occurs in the later key '十一月' |
| Utility.OrderedIsPermutation | src/utility.ts:1-23 | the reordered table holds the same 19 rows as the declared one |
| Utility.OrderedIsReordering | src/utility.ts:1-23 | the reordered table is the weekday rows, then '十一月' and '十二月', then '一月' to '十月' |
| Utility.OrderedIsSafe | src/utility.ts:3-22 | in the reordered table every key has a character that each later key lacks |
| Utility.SafeRowConverted | src/utility.ts:25-30 | in any safely ordered table, each row's token in ASCII text becomes that row's value |
| Utility.OrderedRowConverted | src/utility.ts:25-30 | under the reordered table every weekday and month token becomes its own abbreviation |
| Utility.OrderedNovemberAndDecember | src/utility.ts:21-22 | under the reordered table '十一月' becomes 'Nov' and '十二月' becomes 'Dec' |
| Entities.SetSha256Sum | src/entities/image.entity.ts:26-30 | with a blob present the digest becomes the blob's; without one it is unchanged; no other field changes |
| Entities.HookEstablishesHash | src/entities/image.entity.ts:26-30 | after the hook the digest tracks the blob, and a record without a blob is left as it was |
| Entities.HookIdempotent | src/entities/image.entity.ts:26-29 | running the create/update hook twice is running it once |
| Entities.FindFirst | src/image.service.ts:146 | `findOne` returns the first record in store order that matches, or none when no record matches |
| Entities.FindByUrl | src/image.service.ts:146 | lookup by URL: a stored record with that URL, or none exactly when no record has it |
| Entities.FindBySha | src/image.service.ts:178 | lookup by digest: a stored record with that digest, or none exactly when no record has it |
| Entities.Insert | src/entities/image.entity.ts:6-24 | an insert fails without a blob or on a taken (url, createdAt); otherwise it appends one record with the next id and the hook's digest |
| Entities.InsertKeepsStoreValid | src/entities/image.entity.ts:6 | an insert keeps ids, blobs, digests and (url, createdAt) uniqueness valid |
| Entities.UpdateKeepsStoreValid | src/entities/image.entity.ts:27-29 | after a blob is replaced and the record saved, the digest follows the new blob and the store stays valid |
| Entities.ShaLookupFindsSameContent | src/image.service.ts:176-182 | in a valid store a digest lookup finds a record whose blob has that digest, which the dedup relies on |
| FeedService.ToEntry | src/feed.service.ts:38-48 | guid falls back from guid to link to ''; summary defaults to '' and categories to []; title, content, link and creator are copied; the entry belongs to the feed and its user |
| FeedService.KeptItems | src/feed.service.ts:28-36 | only items with a truthy title and pubDate are kept, in parse order |
| FeedService.KeptItemsAppend | src/feed.service.ts:28-36 | filtering distributes over concatenation |
| FeedService.KeptItemsMembers | src/feed.service.ts:29-36 | an item is kept exactly when it is in the feed and has both a title and a pubDate |
| FeedService.AllKept | src/feed.service.spec.ts:54-55 | a feed whose items all have a title and a pubDate keeps every item |
| FeedService.NoneKept | src/feed.service.ts:29-36 | a feed with no complete item keeps nothing |
| FeedService.FetchEntries | src/feed.service.ts:17-54 | a failed request, a non-ok response or a rejected body throws, and nothing is persisted; otherwise one entry per kept item, in order, all stamped with the feed and its user |
| DataloaderService.LastIndexWithId | src/dataloader.service.ts:44 | the position of the last record with the id, or none when no record has it |
| DataloaderService.BuildMap | src/dataloader.service.ts:44 | the map holds exactly the ids present, each bound to the last record with that id |
| DataloaderService.Remap | src/dataloader.service.ts:43-46 | one slot per requested id; a slot is empty exactly when no record has that id, and otherwise holds the last record with it |
| DataloaderService.RemapConcat | src/dataloader.service.ts:45 | the output follows the order of `ids` |
| DataloaderService.RemapFindsDistinctRecords | src/dataloader.service.ts:44-45 | with distinct record ids, every requested record comes back in each slot that asks for it |
| ImageService.ConditionalRequest | src/image.service.ts:146-154 | `If-None-Match` is sent exactly when the record stored under the URL has a truthy etag, and `If-Modified-Since` exactly when it has a truthy lastModified |
| ImageService.DownloadImage | src/image.service.ts:140-201 | a throw gives no image and an unchanged store; a 304 gives the record stored under the URL; not ok, or not `image/`, gives no image; a known digest gives that record; otherwise the record the database accepts is added, exactly one, and returned, and a refused insert gives no image |
| ImageService.InsertedRecordFields | src/image.service.ts:185-195 | an added record has the final response URL, content type, body, etag and lastModified, the body's digest, the next id and the current time |
| ImageService.DownloadImageKeepsStoreValid | src/image.service.ts:176-195 | a download keeps the image store valid |
| ImageService.DownloadedImageIsHashed | src/entities/image.entity.ts:26-29 | a returned image has a blob, and its digest is the blob's |
| ImageService.SecondDownloadIsConditional | src/image.service.spec.ts:36-93 | after a first download stores a record with an etag and lastModified, downloading again sends both conditional headers |
| ImageService.DownloadImageFromFeed | src/image.service.ts:103-138 | when the feed is fetched ok and parsed, and has a base link and an image URL that resolves, the result is the download of that URL; an image is returned only in that case |
| ImageService.FirstHref | src/image.service.ts:86 | the href of the first `<link>` whose rel equals the selector's up to ASCII case, as the HTML selector matches `rel`, and none when no link has it |
| ImageService.UpperCaseRelMatches | src/image.service.ts:86 | a page whose only icon is `rel="SHORTCUT ICON"` still yields its href, and `rel="Icon"` is taken as the icon link |
| ImageService.IconLink | src/image.service.ts:86 | the `rel="icon"` href when it is truthy, else the `rel="shortcut icon"` one |
| ImageService.SearchAndDownloadFavicon | src/image.service.ts:68-101 | without a link, no image and no change; when the page is fetched ok and its icon link is truthy and resolves, the result is the download of that icon; an image is returned only in that case |
| ImageService.ScanPrefersIcon | src/image.service.spec.ts:124-155 | with a truthy `rel="icon"` link, the page scan downloads that icon |
| ImageService.ScanFallsBackToShortcutIcon | src/image.service.ts:86 | without a truthy `rel="icon"` link, the page scan downloads the `rel="shortcut icon"` link |
| ImageService.DownloadFavicon | src/image.service.ts:42-66 | without a link, nothing; it throws exactly when `/favicon.ico` cannot be resolved; `/favicon.ico` is tried first, and the page scan only runs when that finds no image |
| ImageService.DownloadFeedImage | src/image.service.ts:15-40 | the feed's declared image wins; when the feed gives none, the favicon's image is returned, so both giving none returns none; on success the feed points to the image, and with no image it is unchanged; it throws exactly when `downloadFavicon` throws |
| ImageService.FeedImageKeepsStoreValid | src/image.service.ts:15-40 | the whole chain keeps the image store valid |
| ImageService.FromFeedKeepsStoreValid | src/image.service.ts:103-138 | the feed-image strategy keeps the store valid |
| ImageService.FaviconKeepsStoreValid | src/image.service.ts:42-66 | the favicon strategy keeps the store valid |
| ImageService.SearchKeepsStoreValid | src/image.service.ts:68-101 | the page scan keeps the store valid |
| OpmlService.GetAttributeValue | src/opml.service.ts:172-176 | a missing attribute gives '', a string gives itself, and a qualified attribute gives its `.value` |
| OpmlService.GuardedValueNonEmpty | src/opml.service.ts:35-38 | a plain attribute that passes the truthiness guard reads as non-empty |
| OpmlService.FindText | src/opml.service.ts:69 | `find` by text returns the first outline with that text, or none when no outline has it |
| OpmlService.OnOpen | src/opml.service.ts:34-81 | an open tag that is not `outline`, or has no truthy `text`, is ignored; one without `xmlUrl` appends an empty category and pushes 'category'; a feed pushes 'feed' |
| OpmlService.OnClose | src/opml.service.ts:83-86 | every `outline` close pops the stack, even for an ignored open; popping an empty stack leaves it empty; the outlines never change |
| OpmlService.RunConcat | src/opml.service.ts:34-92 | the handlers fold over the event stream in order |
| OpmlService.StepKeepsWellFormed | src/opml.service.ts:34-86 | each event keeps every top-level outline a category of feeds, and keeps outlines collected while a category is on the stack |
| OpmlService.RunKeepsWellFormed | src/opml.service.ts:34-92 | the invariant holds after any event stream |
| OpmlService.ImportIsFlat | src/opml.service.ts:40-80 | nested categories are flattened: every top-level outline is a category, and every child is a feed without children |
| OpmlService.CategoryBranchAlwaysHasLastOutline | src/opml.service.ts:58-66 | with 'category' on top of the stack there is always a last outline, so the fallback at lines 62-66 never runs |
| OpmlService.PlaceFeedKeepsCategories | src/opml.service.ts:58-78 | placing a feed keeps every outline a category of feeds |
| OpmlService.StepFeeds | src/opml.service.ts:51-80 | an accepted feed outline adds exactly itself to the children of one category; every other event adds none |
| OpmlService.ImportKeepsEveryFeed | src/opml.service.ts:34-92 | the import loses and duplicates no feed: the children of all categories are, as a multiset, the declared feed outlines |
| OpmlService.UncategorizedBucketReused | src/opml.service.spec.ts:65-89 | a feed not directly under a category joins the existing `Uncategorized` outline, which is appended only when missing |
| OpmlService.FeedJoinsLastCategory | src/opml.service.ts:58-61 | a feed under a category is appended to the last outline's children, and nothing else changes |
| OpmlService.FeedRows | src/opml.service.ts:104-112 | children with a falsy `xmlUrl` are skipped; every row has a non-empty url |
| OpmlService.FeedRowsMembers | src/opml.service.ts:104-112 | every child with a truthy `xmlUrl` gives a row with its text, url and link |
| OpmlService.FeedRowsFromChildren | src/opml.service.ts:104-112 | every row comes from a child with a truthy `xmlUrl` |
| OpmlService.PersistPlan | src/opml.service.ts:95-116 | one category per top-level outline, in order, named by its text, or `Uncategorized` when that is empty, and holding the rows of its children |
| OpmlService.FeedsMembers | src/opml.service.ts:40-80 | a feed is among all imported children exactly when some top-level outline holds it |
| OpmlService.DeclaredFeedsImported | src/opml.service.ts:34-92 | a feed outline is imported exactly when the document declares it |
| OpmlService.ImportPersistsDeclaredFeeds | src/opml.service.ts:95-116 | every declared feed with a truthy url is persisted under some category, and every persisted feed row comes from a declared feed |
| OpmlService.ImportFeeds | src/opml.service.ts:23-119 | a parser error rejects the import and nothing is persisted; otherwise one category per collected outline, every declared feed with a truthy url persisted under one of them, and no other feed |
| OpmlService.CategoryName | src/opml.service.ts:129 | the category's name when truthy, else `Uncategorized` |
| OpmlService.FirstOfCategory | src/opml.service.ts:130-135 | the position of the first stored feed of the category, or none when there is none |
| OpmlService.AddToGroupNames | src/opml.service.ts:130-136 | a grouping step keeps every group's name and position, and appends one group when the category is new |
| OpmlService.AddToGroupDistinct | src/opml.service.ts:130-136 | a grouping step keeps group names distinct |
| OpmlService.AddToGroupCovers | src/opml.service.ts:128-143 | after a step, the category of every feed seen has a group |
| OpmlService.GroupMeetsReference | src/opml.service.ts:121-143 | each category has exactly one group, in order of its first feed, holding that category's feeds in stored order |
| OpmlService.GroupedChildrenCount | src/opml.service.ts:128-143 | every stored feed is exported exactly once |
| OpmlService.GroupNamesComeFromFeeds | src/opml.service.ts:129-133 | every group is named after some stored feed's category |
| OpmlService.InheritedNameHasNoGroup | src/opml.service.ts:126 | while no category seen is named after an `Object.prototype` property, no group answers to such a name |
| OpmlService.GroupAsWrittenFails | src/opml.service.ts:126-137 | the loop as written throws exactly when a category is named after an `Object.prototype` property, and otherwise agrees with `Group` |
| OpmlService.ConstructorCategoryThrows | src/opml.service.ts:130-137 | one feed in a category named `constructor`: the loop as written throws, while `Group` makes the one group |
| OpmlService.GroupAttrs | src/opml.service.ts:152-154 | a group is written with `text`, and with `xmlUrl`/`htmlUrl` exactly when they are truthy |
| OpmlService.ReadBackAll | src/opml.service.ts:157-162 | each exported child reads back with its title, and with '' for a falsy url or link |
| OpmlService.ReadBackGroups | src/opml.service.ts:151-165 | each exported group reads back as a category of its read-back children |
| OpmlService.ChildRoundTrip | src/opml.service.ts:157-162 | a readable child's tags add it to the last category and leave the stack there |
| OpmlService.ChildrenRoundTrip | src/opml.service.ts:157-163 | a group's children all join it, in order |
| OpmlService.GroupRoundTrip | src/opml.service.ts:151-164 | one exported group is imported as one category holding its children |
| OpmlService.GroupsRoundTrip | src/opml.service.ts:151-165 | readable groups are imported in order |
| OpmlService.FrameIgnored | src/opml.service.ts:146-150 | the `opml`, `head`, `title` and `body` tags leave the import's state alone |
| OpmlService.DocumentRoundTrip | src/opml.service.ts:145-169 | a whole document of readable groups imports as those groups, with an empty stack |
| OpmlService.GroupReadable | src/opml.service.ts:128-143 | when every stored feed has a title and a url, every group is readable |
| OpmlService.ExportImportRoundTrip | src/opml.service.ts:121-170 | when every feed has a title and a url, importing the document exported with the corrected grouping gives back its groups in order, with each feed in order |
| OpmlService.ExportAsWrittenRoundTrip | src/opml.service.ts:121-170 | the export as written succeeds exactly when no category is named after an inherited property, and then, for feeds with a title and a url, its document imports as its groups |

## Left out

- Network, parsing and URL libraries are parameters, not behaviour. This covers node-fetch, rss-parser, cheerio, sax and WHATWG `URL`; what they compute is not modelled.
- Utility.ReplaceFirst: does not expand `$` patterns such as `$&` in the replacement string. No table value contains `$`, so `convertDate` is unaffected.
- SHA-256 is an opaque function on byte sequences; only its use as a dedup key is modelled.
- Date parsing (`new Date(entry.pubDate)`, src/feed.service.ts:44) and timestamps are not modelled. The entry keeps the pubDate text; the image's `createdAt` is the clock parameter. One clock value serves a whole fallback chain. So two downloads of the same URL with different content in one chain share a `createdAt`, and the model refuses the second as a (url, createdAt) clash. The program would stamp them at different times.
- The ORM is not modelled: forks, `persist`/`flush`, the `upsert` conflict handling of the OPML persist loop, and database transactions. `FetchEntries` returns the entries handed to `persist`; `PersistPlan` returns the categories and feeds handed to `upsert`.
- Uniqueness at flush: a record that breaks (url, createdAt) is refused by `Entities.Insert`. The error is caught, so no image is returned. Other database errors are not modelled.
- FeedService.FetchEntries: does not model the (user, feed, guid) uniqueness of entries (src/entities/entry.entity.ts:6), which makes the flush at src/feed.service.ts:53 throw. A second fetch of a feed whose items are already stored, or two kept items with the same guid (two with neither guid nor link both get ''), throws there, while `FetchEntries` returns `Success` with all of them. The entries already stored are not part of the model.
- The persist of `feed.image` in `downloadFeedImage` is modelled as the returned feed value, not as a write.
- The loaders at src/dataloader.service.ts:18-41 are database queries, so only `remap` is modelled.
- Logging throughout is not modelled.
- XML text is not modelled for the export: string building, escaping and the head's title text with the export time. The document is modelled as the SAX events a parser reports for it.
- OpmlService.ImportFeeds: SAX attributes are a map from name to value, and parser errors are one `ParseError`. The stream's `end` event is the end of the event sequence.
- OpmlService.ExportImportRoundTrip: states the round trip only for feeds with a non-empty title and url. An outline without `text` is ignored on import, and one with an empty `xmlUrl` is read as a category, so other feeds do not round-trip.
- The cooldown scheduler, job log, authentication, resolvers, controllers, configuration, the `api/` variant and the UI are not part of this model.

## Findings

| source | as written | input that shows it | evidently intended | confidence | as-written member | corrected member |
|---|---|---|---|---|---|---|
| src/opml.service.ts:126-137 | the category map is an empty object literal, so `categoriesMap[name]` also reads inherited `Object.prototype` properties; a category named after one is taken as already grouped, and `.children.push` on it throws a TypeError | one stored feed whose category is named `constructor` | a map with own keys only: every category gets its group | not executed | OpmlService.ConstructorCategoryThrows | OpmlService.GroupMeetsReference |
| src/utility.ts:11-12, src/utility.ts:21-22 | '一月' and '二月' are applied before '十一月' and '十二月' and replace their tail, so November and December are never recognised | '十一月' becomes '十Jan'; '十二月' becomes '十Feb' | longer month tokens applied before the tokens they contain: '十一月' becomes 'Nov' and '十二月' becomes 'Dec' | not executed | Utility.NovemberMisread | Utility.OrderedRowConverted |
