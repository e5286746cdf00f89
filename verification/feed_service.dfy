/** Fetching a feed and turning its parsed items into entries: the response
    check, the skip rules for items without a title or a publication date,
    and the item-to-entry field mapping. */
module FeedService {
  import opened Wrappers
  import opened Entities

  /** A parsed feed item; every field may be absent. */
  datatype Item = Item(
    title: Option<string>,
    pubDate: Option<string>,
    guid: Option<string>,
    link: Option<string>,
    content: Option<string>,
    summary: Option<string>,
    creator: Option<string>,
    categories: Option<seq<string>>)

  /** What fetching and parsing the feed produced: the request failed
      outright, or a response with its `ok` flag and status, and the parsed
      items (`None` when the parser rejected the body). */
  datatype FeedResponse =
    | NetworkFailure
    | Response(ok: bool, status: int, parsed: Option<seq<Item>>)

  datatype FetchError = RequestFailed | HttpError(status: int) | ParseError

  /** An item is kept when both its title and its pubDate are truthy. */
  predicate Kept(item: Item) {
    Truthy(item.title) && Truthy(item.pubDate)
  }

  /** The entry built from a kept item for `feed`. */
  function ToEntry(item: Item, feed: Feed): (e: Entry)
    requires Kept(item)
    ensures Truthy(item.guid) ==> e.guid == item.guid.value
    ensures !Truthy(item.guid) && Truthy(item.link) ==> e.guid == item.link.value
    ensures !Truthy(item.guid) && !Truthy(item.link) ==> e.guid == ""
    ensures e.title == item.title.value && e.pubDate == item.pubDate.value
    ensures e.content == item.content && e.link == item.link && e.creator == item.creator
    ensures Truthy(item.summary) ==> e.summary == item.summary.value
    ensures !Truthy(item.summary) ==> e.summary == ""
    ensures item.categories.Some? ==> e.categories == item.categories.value
    ensures item.categories.None? ==> e.categories == []
    ensures e.user == feed.user && e.feed == feed.id
  {
    Entry(
      guid := Or(OrElse(item.guid, item.link), ""),
      title := item.title.value,
      content := item.content,
      summary := Or(item.summary, ""),
      link := item.link,
      pubDate := item.pubDate.value,
      creator := item.creator,
      categories := if item.categories.Some? then item.categories.value else [],
      user := feed.user,
      feed := feed.id)
  }

  /** The kept items, in parse order. */
  function KeptItems(items: seq<Item>): (r: seq<Item>)
    ensures |r| <= |items|
    ensures forall i :: 0 <= i < |r| ==> Kept(r[i])
  {
    if |items| == 0 then []
    else KeptItems(items[..|items| - 1]) + (if Kept(items[|items| - 1]) then [items[|items| - 1]] else [])
  }

  /** Filtering distributes over concatenation, so the kept items of a feed
      are the kept items of each part, in order. */
  lemma {:induction false} KeptItemsAppend(a: seq<Item>, b: seq<Item>)
    ensures KeptItems(a + b) == KeptItems(a) + KeptItems(b)
    decreases |b|
  {
    if |b| == 0 {
      assert a + b == a;
    } else {
      var b' := b[..|b| - 1];
      assert (a + b)[..|a + b| - 1] == a + b';
      KeptItemsAppend(a, b');
    }
  }

  /** An item is among the kept items exactly when it is in the feed and it
      has both a title and a pubDate. */
  lemma {:induction false} KeptItemsMembers(items: seq<Item>, x: Item)
    ensures x in KeptItems(items) <==> x in items && Kept(x)
    decreases |items|
  {
    if |items| > 0 {
      var init := items[..|items| - 1];
      KeptItemsMembers(init, x);
      assert items == init + [items[|items| - 1]];
    }
  }

  /** A feed whose items all have a title and a pubDate keeps all of them. */
  lemma {:induction false} AllKept(items: seq<Item>)
    requires forall i :: 0 <= i < |items| ==> Kept(items[i])
    ensures KeptItems(items) == items
    decreases |items|
  {
    if |items| > 0 {
      var init := items[..|items| - 1];
      assert forall i :: 0 <= i < |init| ==> init[i] == items[i];
      AllKept(init);
      assert items == init + [items[|items| - 1]];
    }
  }

  /** A feed where no item has both a title and a pubDate keeps none. */
  lemma {:induction false} NoneKept(items: seq<Item>)
    requires forall i :: 0 <= i < |items| ==> !Kept(items[i])
    ensures KeptItems(items) == []
    decreases |items|
  {
    if |items| > 0 {
      var init := items[..|items| - 1];
      assert forall i :: 0 <= i < |init| ==> init[i] == items[i];
      NoneKept(init);
    }
  }

  /** `fetchEntries`: the entries handed to the entity manager. A request
      that fails, a non-ok response and a body the parser rejects all throw,
      and then nothing is persisted. Otherwise the entries are those of the
      kept items, one per kept item, in parse order. */
  method FetchEntries(feed: Feed, response: FeedResponse) returns (r: Result<seq<Entry>, FetchError>)
    ensures response.NetworkFailure? ==> r == Failure(RequestFailed)
    ensures response.Response? && !response.ok ==> r == Failure(HttpError(response.status))
    ensures response.Response? && response.ok && response.parsed.None? ==> r == Failure(ParseError)
    ensures response.Response? && response.ok && response.parsed.Some? ==>
      && r.Success?
      && |r.value| == |KeptItems(response.parsed.value)|
      && forall i :: 0 <= i < |r.value| ==> r.value[i] == ToEntry(KeptItems(response.parsed.value)[i], feed)
    ensures r.Success? ==> forall i :: 0 <= i < |r.value| ==> r.value[i].user == feed.user && r.value[i].feed == feed.id
  {
    if response.NetworkFailure? {
      return Failure(RequestFailed);
    }
    if !response.ok {
      return Failure(HttpError(response.status));
    }
    if response.parsed.None? {
      return Failure(ParseError);
    }
    var items := response.parsed.value;
    var entries: seq<Entry> := [];
    var i := 0;
    while i < |items|
      invariant 0 <= i <= |items|
      invariant |entries| == |KeptItems(items[..i])|
      invariant forall k :: 0 <= k < |entries| ==> entries[k] == ToEntry(KeptItems(items[..i])[k], feed)
    {
      var item := items[i];
      assert items[..i + 1][..i] == items[..i];
      if !Truthy(item.title) {
        i := i + 1;
        continue;
      }
      if !Truthy(item.pubDate) {
        i := i + 1;
        continue;
      }
      entries := entries + [ToEntry(item, feed)];
      i := i + 1;
    }
    assert items[..i] == items;
    return Success(entries);
  }
}
