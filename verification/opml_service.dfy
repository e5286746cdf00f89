/** OPML import and export: the SAX-event state machine that groups feed
    outlines under flattened categories, the persistence rules applied to
    its result, and the export's group-by-category. */
module OpmlService {
  import opened Wrappers

  const DefaultCategoryName: string := "Uncategorized"

  /** A SAX attribute value: a plain string, or a namespace-qualified
      attribute object (an object is always truthy). */
  datatype AttrValue = Plain(s: string) | Qualified(value: string)

  type Attrs = map<string, AttrValue>

  datatype SaxEvent = Open(name: string, attrs: Attrs) | Close(name: string)

  /** An outline: a category (no `xmlUrl`) or a feed. */
  datatype Outline = Outline(text: string, xmlUrl: Option<string>, htmlUrl: Option<string>, children: seq<Outline>)

  /** The entries of the `traversed` stack. */
  datatype Kind = CategoryKind | FeedKind

  /** The top-level outlines collected so far and the `traversed` stack. */
  datatype ImportState = ImportState(outlines: seq<Outline>, traversed: seq<Kind>)

  const Initial := ImportState([], [])

  function Get(attrs: Attrs, name: string): Option<AttrValue> {
    if name in attrs then Some(attrs[name]) else None
  }

  /** JavaScript truthiness of `node.attributes[name]`. */
  predicate AttrTruthy(attrs: Attrs, name: string) {
    name in attrs && (attrs[name].Plain? ==> attrs[name].s != "")
  }

  /** `getAttributeValue`: `''` for a missing or empty attribute, the
      string itself, or the `.value` of a qualified attribute. */
  function GetAttributeValue(v: Option<AttrValue>): (r: string)
    ensures v.None? ==> r == ""
    ensures v.Some? && v.value.Plain? ==> r == v.value.s
    ensures v.Some? && v.value.Qualified? ==> r == v.value.value
  {
    match v
    case None => ""
    case Some(Plain(s)) => if s == "" then "" else s
    case Some(Qualified(value)) => value
  }

  /** A plain attribute that passes the truthiness guard yields a non-empty
      value; only a qualified one can pass the guard and still read as `''`. */
  lemma GuardedValueNonEmpty(attrs: Attrs, name: string)
    requires AttrTruthy(attrs, name)
    ensures GetAttributeValue(Get(attrs, name)) == "" ==> attrs[name] == Qualified("")
  {
  }

  function AddChild(o: Outline, child: Outline): (r: Outline)
    ensures r.children == o.children + [child]
  {
    o.(children := o.children + [child])
  }

  /** `outlines.find(o => o.text === name)`, as an index: the first outline
      with that text. */
  function FindText(outlines: seq<Outline>, name: string): (r: Option<nat>)
    ensures r.Some? ==> r.value < |outlines| && outlines[r.value].text == name
    ensures r.Some? ==> forall j :: 0 <= j < r.value ==> outlines[j].text != name
    ensures r.None? <==> forall j :: 0 <= j < |outlines| ==> outlines[j].text != name
  {
    if |outlines| == 0 then None
    else if outlines[0].text == name then Some(0)
    else
      var r := FindText(outlines[1..], name);
      assert forall j :: 1 <= j < |outlines| ==> outlines[j] == outlines[1..][j - 1];
      if r.Some? then Some(r.value + 1) else None
  }

  function FindDefault(outlines: seq<Outline>): Option<nat> {
    FindText(outlines, DefaultCategoryName)
  }

  function NewBucket(feed: Outline): Outline {
    Outline(DefaultCategoryName, None, None, [feed])
  }

  /** Where a feed outline goes: under the last outline when the stack top
      is a category, otherwise into the first `Uncategorized` outline, which
      is appended when there is none. */
  function PlaceFeed(outlines: seq<Outline>, traversed: seq<Kind>, feed: Outline): seq<Outline> {
    if |traversed| > 0 && traversed[|traversed| - 1] == CategoryKind then
      if |outlines| > 0 then outlines[|outlines| - 1 := AddChild(outlines[|outlines| - 1], feed)]
      else outlines + [NewBucket(feed)]
    else
      match FindDefault(outlines)
      case Some(k) => outlines[k := AddChild(outlines[k], feed)]
      case None => outlines + [NewBucket(feed)]
  }

  /** The feed outline built from an accepted open tag. */
  function FeedOf(attrs: Attrs): Outline {
    Outline(
      GetAttributeValue(Get(attrs, "text")),
      Some(GetAttributeValue(Get(attrs, "xmlUrl"))),
      Some(GetAttributeValue(Get(attrs, "htmlUrl"))),
      [])
  }

  /** An open tag the handler acts on: an `outline` with a truthy `text`. */
  predicate Accepted(name: string, attrs: Attrs) {
    name == "outline" && AttrTruthy(attrs, "text")
  }

  /** The `opentag` handler. */
  function OnOpen(st: ImportState, name: string, attrs: Attrs): (r: ImportState)
    ensures !Accepted(name, attrs) ==> r == st
    ensures Accepted(name, attrs) && !AttrTruthy(attrs, "xmlUrl") ==>
      r == ImportState(st.outlines + [Outline(GetAttributeValue(Get(attrs, "text")), None, None, [])],
                       st.traversed + [CategoryKind])
    ensures Accepted(name, attrs) && AttrTruthy(attrs, "xmlUrl") ==>
      r.traversed == st.traversed + [FeedKind]
  {
    if !Accepted(name, attrs) then st
    else if !AttrTruthy(attrs, "xmlUrl") then
      ImportState(st.outlines + [Outline(GetAttributeValue(Get(attrs, "text")), None, None, [])],
                  st.traversed + [CategoryKind])
    else
      ImportState(PlaceFeed(st.outlines, st.traversed, FeedOf(attrs)), st.traversed + [FeedKind])
  }

  /** The `closetag` handler: every `outline` close pops the stack, also
      for outlines the open handler ignored; popping an empty stack leaves
      it empty. The outlines never change. */
  function OnClose(st: ImportState, name: string): (r: ImportState)
    ensures r.outlines == st.outlines
    ensures name != "outline" ==> r.traversed == st.traversed
    ensures name == "outline" && |st.traversed| > 0 ==> r.traversed == st.traversed[..|st.traversed| - 1]
    ensures name == "outline" && |st.traversed| == 0 ==> r.traversed == []
  {
    if name != "outline" then st
    else if |st.traversed| == 0 then st
    else st.(traversed := st.traversed[..|st.traversed| - 1])
  }

  function Step(st: ImportState, e: SaxEvent): ImportState {
    match e
    case Open(name, attrs) => OnOpen(st, name, attrs)
    case Close(name) => OnClose(st, name)
  }

  /** Feeding a sequence of events to the handlers, in order. */
  function Run(st: ImportState, events: seq<SaxEvent>): ImportState
    decreases |events|
  {
    if |events| == 0 then st else Run(Step(st, events[0]), events[1..])
  }

  /** The outlines the import resolves with once the stream has ended. */
  function Import(events: seq<SaxEvent>): seq<Outline> {
    Run(Initial, events).outlines
  }

  lemma {:induction false} RunConcat(st: ImportState, a: seq<SaxEvent>, b: seq<SaxEvent>)
    ensures Run(st, a + b) == Run(Run(st, a), b)
    decreases |a|
  {
    if |a| == 0 {
      assert a + b == b;
    } else {
      assert (a + b)[0] == a[0];
      assert (a + b)[1..] == a[1..] + b;
      RunConcat(Step(st, a[0]), a[1..], b);
    }
  }

  // ---------------------------------------------------------------------
  // Shape of the result
  // ---------------------------------------------------------------------

  predicate IsFeed(o: Outline) {
    o.xmlUrl.Some? && o.children == []
  }

  /** A top-level outline is a category whose children are feeds. */
  predicate IsCategory(o: Outline) {
    o.xmlUrl.None? && forall i :: 0 <= i < |o.children| ==> IsFeed(o.children[i])
  }

  /** The invariant of the handlers: nesting is flattened to two levels,
      and a category on the stack means some outline has been collected. */
  predicate WellFormed(st: ImportState) {
    && (forall i :: 0 <= i < |st.outlines| ==> IsCategory(st.outlines[i]))
    && (CategoryKind in st.traversed ==> |st.outlines| > 0)
  }

  lemma AddFeedKeepsCategory(o: Outline, feed: Outline)
    requires IsCategory(o) && IsFeed(feed)
    ensures IsCategory(AddChild(o, feed))
  {
    var c := AddChild(o, feed).children;
    assert forall i :: 0 <= i < |o.children| ==> c[i] == o.children[i];
  }

  lemma PlaceFeedKeepsCategories(outlines: seq<Outline>, traversed: seq<Kind>, feed: Outline)
    requires forall i :: 0 <= i < |outlines| ==> IsCategory(outlines[i])
    requires IsFeed(feed)
    ensures var r := PlaceFeed(outlines, traversed, feed);
      |r| > 0 && |r| >= |outlines| && forall i :: 0 <= i < |r| ==> IsCategory(r[i])
  {
    if |traversed| > 0 && traversed[|traversed| - 1] == CategoryKind && |outlines| > 0 {
      AddFeedKeepsCategory(outlines[|outlines| - 1], feed);
    } else if !(|traversed| > 0 && traversed[|traversed| - 1] == CategoryKind) && FindDefault(outlines).Some? {
      AddFeedKeepsCategory(outlines[FindDefault(outlines).value], feed);
    }
  }

  lemma PopKeepsNoCategory(t: seq<Kind>)
    requires |t| > 0 && CategoryKind !in t
    ensures CategoryKind !in t[..|t| - 1]
  {
    assert forall k :: k in t[..|t| - 1] ==> k in t;
  }

  lemma StepKeepsWellFormed(st: ImportState, e: SaxEvent)
    requires WellFormed(st)
    ensures WellFormed(Step(st, e))
  {
    match e
    case Open(name, attrs) =>
      if Accepted(name, attrs) && !AttrTruthy(attrs, "xmlUrl") {
        var r := Step(st, e);
        assert forall i :: 0 <= i < |st.outlines| ==> r.outlines[i] == st.outlines[i];
      } else if Accepted(name, attrs) {
        var r := Step(st, e);
        PlaceFeedKeepsCategories(st.outlines, st.traversed, FeedOf(attrs));
        assert CategoryKind in r.traversed ==> CategoryKind in st.traversed;
      }
    case Close(name) =>
      if name == "outline" && |st.traversed| > 0 && CategoryKind !in st.traversed {
        PopKeepsNoCategory(st.traversed);
      }
  }

  lemma {:induction false} RunKeepsWellFormed(st: ImportState, events: seq<SaxEvent>)
    requires WellFormed(st)
    ensures WellFormed(Run(st, events))
    decreases |events|
  {
    if |events| > 0 {
      StepKeepsWellFormed(st, events[0]);
      RunKeepsWellFormed(Step(st, events[0]), events[1..]);
    }
  }

  /** Whatever the document, the import flattens it: every top-level
      outline is a category, and every child of one is a feed without
      children. */
  lemma ImportIsFlat(events: seq<SaxEvent>)
    ensures forall i :: 0 <= i < |Import(events)| ==> IsCategory(Import(events)[i])
  {
    RunKeepsWellFormed(Initial, events);
  }

  /** In every reachable state, a feed under a category always finds a last
      outline to join: the fallback that appends an `Uncategorized` outline
      in that branch never runs. */
  lemma CategoryBranchAlwaysHasLastOutline(events: seq<SaxEvent>)
    ensures var st := Run(Initial, events);
      |st.traversed| > 0 && st.traversed[|st.traversed| - 1] == CategoryKind ==> |st.outlines| > 0
  {
    RunKeepsWellFormed(Initial, events);
    var st := Run(Initial, events);
    if |st.traversed| > 0 && st.traversed[|st.traversed| - 1] == CategoryKind {
      assert CategoryKind in st.traversed;
    }
  }

  // ---------------------------------------------------------------------
  // Every accepted feed lands in exactly one category
  // ---------------------------------------------------------------------

  /** All children of the top-level outlines, in order. */
  function Feeds(outlines: seq<Outline>): seq<Outline>
    decreases |outlines|
  {
    if |outlines| == 0 then [] else Feeds(outlines[..|outlines| - 1]) + outlines[|outlines| - 1].children
  }

  lemma {:induction false} FeedsConcat(a: seq<Outline>, b: seq<Outline>)
    ensures Feeds(a + b) == Feeds(a) + Feeds(b)
    decreases |b|
  {
    if |b| == 0 {
      assert a + b == a;
    } else {
      var b' := b[..|b| - 1];
      assert (a + b)[..|a + b| - 1] == a + b';
      assert (a + b)[|a + b| - 1] == b[|b| - 1];
      assert Feeds(a + b) == Feeds(a + b') + b[|b| - 1].children;
      assert Feeds(b) == Feeds(b') + b[|b| - 1].children;
      FeedsConcat(a, b');
    }
  }

  lemma FeedsSingle(o: Outline)
    ensures Feeds([o]) == o.children
  {
    assert [o][..0] == [];
  }

  /** Adding a child to one outline adds exactly that child to the pool of
      all children. */
  lemma AddChildAt(outlines: seq<Outline>, k: int, feed: Outline)
    requires 0 <= k < |outlines|
    ensures multiset(Feeds(outlines[k := AddChild(outlines[k], feed)])) == multiset(Feeds(outlines)) + multiset{feed}
  {
    var a := outlines[..k];
    var b := outlines[k + 1..];
    var o := outlines[k];
    assert outlines == a + [o] + b;
    assert outlines[k := AddChild(o, feed)] == a + [AddChild(o, feed)] + b;
    FeedsConcat(a + [o], b);
    FeedsConcat(a, [o]);
    FeedsConcat(a + [AddChild(o, feed)], b);
    FeedsConcat(a, [AddChild(o, feed)]);
    FeedsSingle(o);
    FeedsSingle(AddChild(o, feed));
  }

  lemma AppendBucket(outlines: seq<Outline>, feed: Outline)
    ensures multiset(Feeds(outlines + [NewBucket(feed)])) == multiset(Feeds(outlines)) + multiset{feed}
  {
    FeedsConcat(outlines, [NewBucket(feed)]);
    FeedsSingle(NewBucket(feed));
  }

  lemma PlaceFeedAddsOne(outlines: seq<Outline>, traversed: seq<Kind>, feed: Outline)
    ensures multiset(Feeds(PlaceFeed(outlines, traversed, feed))) == multiset(Feeds(outlines)) + multiset{feed}
  {
    if |traversed| > 0 && traversed[|traversed| - 1] == CategoryKind {
      if |outlines| > 0 {
        AddChildAt(outlines, |outlines| - 1, feed);
      } else {
        AppendBucket(outlines, feed);
      }
    } else {
      match FindDefault(outlines)
      case Some(k) => AddChildAt(outlines, k, feed);
      case None => AppendBucket(outlines, feed);
    }
  }

  lemma CategoryAddsNone(outlines: seq<Outline>, o: Outline)
    requires o.children == []
    ensures Feeds(outlines + [o]) == Feeds(outlines)
  {
    FeedsConcat(outlines, [o]);
    FeedsSingle(o);
  }

  /** Each accepted feed outline adds exactly one child, itself, to exactly
      one category; categories and every other event add none. */
  lemma StepFeeds(st: ImportState, e: SaxEvent)
    ensures e.Open? && Accepted(e.name, e.attrs) && AttrTruthy(e.attrs, "xmlUrl") ==>
      multiset(Feeds(Step(st, e).outlines)) == multiset(Feeds(st.outlines)) + multiset{FeedOf(e.attrs)}
    ensures !(e.Open? && Accepted(e.name, e.attrs) && AttrTruthy(e.attrs, "xmlUrl")) ==>
      Feeds(Step(st, e).outlines) == Feeds(st.outlines)
  {
    if e.Open? && Accepted(e.name, e.attrs) {
      if AttrTruthy(e.attrs, "xmlUrl") {
        PlaceFeedAddsOne(st.outlines, st.traversed, FeedOf(e.attrs));
      } else {
        CategoryAddsNone(st.outlines, Outline(GetAttributeValue(Get(e.attrs, "text")), None, None, []));
      }
    }
  }

  /** The feed outlines a document declares, in document order. */
  function DeclaredFeeds(events: seq<SaxEvent>): seq<Outline>
    decreases |events|
  {
    if |events| == 0 then []
    else
      var e := events[0];
      (if e.Open? && Accepted(e.name, e.attrs) && AttrTruthy(e.attrs, "xmlUrl") then [FeedOf(e.attrs)] else [])
      + DeclaredFeeds(events[1..])
  }

  /** The import loses and duplicates no feed: the children of all
      categories are, as a multiset, exactly the declared feed outlines. */
  lemma {:induction false} ImportKeepsEveryFeed(st: ImportState, events: seq<SaxEvent>)
    ensures multiset(Feeds(Run(st, events).outlines)) == multiset(Feeds(st.outlines)) + multiset(DeclaredFeeds(events))
    decreases |events|
  {
    if |events| > 0 {
      StepFeeds(st, events[0]);
      ImportKeepsEveryFeed(Step(st, events[0]), events[1..]);
    }
  }

  /** A feed that is not directly under a category joins the existing
      `Uncategorized` outline, so at most one is ever made for such feeds. */
  lemma UncategorizedBucketReused(outlines: seq<Outline>, traversed: seq<Kind>, feed: Outline)
    requires !(|traversed| > 0 && traversed[|traversed| - 1] == CategoryKind)
    ensures FindDefault(outlines).Some? ==> |PlaceFeed(outlines, traversed, feed)| == |outlines|
    ensures FindDefault(outlines).Some? ==>
      PlaceFeed(outlines, traversed, feed)[FindDefault(outlines).value].children ==
        outlines[FindDefault(outlines).value].children + [feed]
    ensures FindDefault(outlines).None? ==> PlaceFeed(outlines, traversed, feed) == outlines + [NewBucket(feed)]
  {
  }

  /** A feed under a category joins the category opened last. */
  lemma FeedJoinsLastCategory(outlines: seq<Outline>, traversed: seq<Kind>, feed: Outline)
    requires |traversed| > 0 && traversed[|traversed| - 1] == CategoryKind && |outlines| > 0
    ensures |PlaceFeed(outlines, traversed, feed)| == |outlines|
    ensures PlaceFeed(outlines, traversed, feed)[..|outlines| - 1] == outlines[..|outlines| - 1]
    ensures PlaceFeed(outlines, traversed, feed)[|outlines| - 1].children == outlines[|outlines| - 1].children + [feed]
  {
  }

  // ---------------------------------------------------------------------
  // Persisting the imported outlines
  // ---------------------------------------------------------------------

  /** A feed to upsert: its title, url and link. */
  datatype FeedRow = FeedRow(title: string, url: string, link: Option<string>)

  /** A category to upsert with the feeds to upsert under it. */
  datatype CategoryRow = CategoryRow(name: string, feeds: seq<FeedRow>)

  /** The feed rows of a category's children: a child whose `xmlUrl` is
      falsy is skipped. */
  function FeedRows(children: seq<Outline>): (r: seq<FeedRow>)
    ensures |r| <= |children|
    ensures forall i :: 0 <= i < |r| ==> r[i].url != ""
    decreases |children|
  {
    if |children| == 0 then []
    else
      var c := children[|children| - 1];
      FeedRows(children[..|children| - 1])
      + (if Truthy(c.xmlUrl) then [FeedRow(c.text, c.xmlUrl.value, c.htmlUrl)] else [])
  }

  /** Every child with a truthy `xmlUrl` gives a feed row. */
  lemma {:induction false} FeedRowsMembers(children: seq<Outline>, c: Outline)
    requires c in children && Truthy(c.xmlUrl)
    ensures FeedRow(c.text, c.xmlUrl.value, c.htmlUrl) in FeedRows(children)
    decreases |children|
  {
    var init := children[..|children| - 1];
    if c != children[|children| - 1] {
      assert children == init + [children[|children| - 1]];
      FeedRowsMembers(init, c);
    }
  }

  /** Every row comes from some child with a truthy `xmlUrl`. */
  lemma {:induction false} FeedRowsFromChildren(children: seq<Outline>, row: FeedRow)
    requires row in FeedRows(children)
    ensures exists c :: c in children && Truthy(c.xmlUrl) && row == FeedRow(c.text, c.xmlUrl.value, c.htmlUrl)
    decreases |children|
  {
    var init := children[..|children| - 1];
    var c := children[|children| - 1];
    if row in FeedRows(init) {
      FeedRowsFromChildren(init, row);
      var c' :| c' in init && Truthy(c'.xmlUrl) && row == FeedRow(c'.text, c'.xmlUrl.value, c'.htmlUrl);
      assert c' in children;
    } else {
      assert row == FeedRow(c.text, c.xmlUrl.value, c.htmlUrl);
    }
  }

  /** The upserts of the persist loop, one category per top-level outline
      and in its order; a category with an empty name gets the default. */
  function PersistPlan(outlines: seq<Outline>): (r: seq<CategoryRow>)
    ensures |r| == |outlines|
    ensures forall i :: 0 <= i < |r| ==> r[i].name != ""
    ensures forall i :: 0 <= i < |r| ==>
      r[i].name == (if outlines[i].text == "" then DefaultCategoryName else outlines[i].text)
    ensures forall i :: 0 <= i < |r| ==> r[i].feeds == FeedRows(outlines[i].children)
  {
    seq(|outlines|, i requires 0 <= i < |outlines| =>
      CategoryRow(if outlines[i].text == "" then DefaultCategoryName else outlines[i].text,
                  FeedRows(outlines[i].children)))
  }

  /** A feed outline is among all children exactly when some top-level
      outline holds it. */
  lemma {:induction false} FeedsMembers(outlines: seq<Outline>, c: Outline)
    ensures c in Feeds(outlines) <==> exists i :: 0 <= i < |outlines| && c in outlines[i].children
    decreases |outlines|
  {
    if |outlines| > 0 {
      var init := outlines[..|outlines| - 1];
      var last := outlines[|outlines| - 1];
      FeedsMembers(init, c);
      assert Feeds(outlines) == Feeds(init) + last.children;
      if c in Feeds(init) {
        var i :| 0 <= i < |init| && c in init[i].children;
        assert outlines[i] == init[i];
      }
      if exists i :: 0 <= i < |outlines| && c in outlines[i].children {
        var i :| 0 <= i < |outlines| && c in outlines[i].children;
        if i < |init| {
          assert init[i] == outlines[i];
        }
      }
    }
  }

  /** A feed outline is imported exactly when the document declares it. */
  lemma DeclaredFeedsImported(events: seq<SaxEvent>, c: Outline)
    ensures c in Feeds(Import(events)) <==> c in DeclaredFeeds(events)
  {
    ImportKeepsEveryFeed(Initial, events);
    assert Feeds(Initial.outlines) == [];
    assert c in Feeds(Import(events)) <==> c in multiset(Feeds(Import(events)));
    assert c in DeclaredFeeds(events) <==> c in multiset(DeclaredFeeds(events));
  }

  /** Every declared feed with a truthy url is persisted under some
      category, and every persisted feed is a declared one. */
  lemma ImportPersistsDeclaredFeeds(events: seq<SaxEvent>)
    ensures var plan := PersistPlan(Import(events));
      forall c :: c in DeclaredFeeds(events) && Truthy(c.xmlUrl) ==>
        exists i :: 0 <= i < |plan| && FeedRow(c.text, c.xmlUrl.value, c.htmlUrl) in plan[i].feeds
    ensures var plan := PersistPlan(Import(events));
      forall i, row :: 0 <= i < |plan| && row in plan[i].feeds ==>
        exists c :: c in DeclaredFeeds(events) && Truthy(c.xmlUrl) && row == FeedRow(c.text, c.xmlUrl.value, c.htmlUrl)
  {
    var outlines := Import(events);
    var plan := PersistPlan(outlines);
    forall c | c in DeclaredFeeds(events) && Truthy(c.xmlUrl)
      ensures exists i :: 0 <= i < |plan| && FeedRow(c.text, c.xmlUrl.value, c.htmlUrl) in plan[i].feeds
    {
      DeclaredFeedsImported(events, c);
      FeedsMembers(outlines, c);
      var i :| 0 <= i < |outlines| && c in outlines[i].children;
      FeedRowsMembers(outlines[i].children, c);
      assert FeedRow(c.text, c.xmlUrl.value, c.htmlUrl) in plan[i].feeds;
    }
    forall i, row | 0 <= i < |plan| && row in plan[i].feeds
      ensures exists c :: c in DeclaredFeeds(events) && Truthy(c.xmlUrl) && row == FeedRow(c.text, c.xmlUrl.value, c.htmlUrl)
    {
      FeedRowsFromChildren(outlines[i].children, row);
      var c :| c in outlines[i].children && Truthy(c.xmlUrl) && row == FeedRow(c.text, c.xmlUrl.value, c.htmlUrl);
      FeedsMembers(outlines, c);
      DeclaredFeedsImported(events, c);
    }
  }

  datatype ImportError = ParseError

  /** `importFeeds`: a parser error rejects the import before anything is
      persisted. Otherwise one category is persisted per collected outline;
      every declared feed with a truthy url is persisted under one of them,
      and nothing else is. */
  function ImportFeeds(parsed: Option<seq<SaxEvent>>): (r: Result<seq<CategoryRow>, ImportError>)
    ensures parsed.None? <==> r == Failure(ParseError)
    ensures parsed.Some? ==> r == Success(PersistPlan(Import(parsed.value)))
    ensures parsed.Some? ==> |r.value| == |Import(parsed.value)|
    ensures parsed.Some? ==>
      forall c :: c in DeclaredFeeds(parsed.value) && Truthy(c.xmlUrl) ==>
        exists i :: 0 <= i < |r.value| && FeedRow(c.text, c.xmlUrl.value, c.htmlUrl) in r.value[i].feeds
    ensures parsed.Some? ==>
      forall i, row :: 0 <= i < |r.value| && row in r.value[i].feeds ==>
        exists c :: c in DeclaredFeeds(parsed.value) && Truthy(c.xmlUrl) && row == FeedRow(c.text, c.xmlUrl.value, c.htmlUrl)
  {
    if parsed.None? then Failure(ParseError)
    else
      ImportPersistsDeclaredFeeds(parsed.value);
      Success(PersistPlan(Import(parsed.value)))
  }

  // ---------------------------------------------------------------------
  // Export: grouping the stored feeds by category
  // ---------------------------------------------------------------------

  /** A stored feed as the export reads it: `category` is the name of its
      category, `None` when it has none. */
  datatype StoredFeed = StoredFeed(title: string, url: string, link: Option<string>, category: Option<string>)

  /** `feed.category?.name || DEFAULT_CATEGORY_NAME`. */
  function CategoryName(f: StoredFeed): (r: string)
    ensures r != ""
    ensures Truthy(f.category) ==> r == f.category.value
    ensures !Truthy(f.category) ==> r == DefaultCategoryName
  {
    Or(f.category, DefaultCategoryName)
  }

  function ChildOf(f: StoredFeed): Outline {
    Outline(f.title, Some(f.url), f.link, [])
  }

  /** Reference definition: the children of the group named `name`, i.e. the
      stored feeds of that category, in stored order. */
  function Members(feeds: seq<StoredFeed>, name: string): seq<Outline>
    decreases |feeds|
  {
    if |feeds| == 0 then []
    else
      var f := feeds[|feeds| - 1];
      Members(feeds[..|feeds| - 1], name) + (if CategoryName(f) == name then [ChildOf(f)] else [])
  }

  /** Reference definition: the position of the first stored feed of
      category `name`. */
  function FirstOfCategory(feeds: seq<StoredFeed>, name: string): (r: Option<nat>)
    ensures r.Some? ==> r.value < |feeds| && CategoryName(feeds[r.value]) == name
    ensures r.Some? ==> forall j :: 0 <= j < r.value ==> CategoryName(feeds[j]) != name
    ensures r.None? <==> forall j :: 0 <= j < |feeds| ==> CategoryName(feeds[j]) != name
    decreases |feeds|
  {
    if |feeds| == 0 then None
    else
      var r := FirstOfCategory(feeds[..|feeds| - 1], name);
      if r.Some? then r
      else if CategoryName(feeds[|feeds| - 1]) == name then Some(|feeds| - 1)
      else None
  }

  /** One step of the grouping loop with an own-keys-only map: the feed
      joins the group of its category, which is appended when new. */
  function AddToGroup(groups: seq<Outline>, f: StoredFeed): seq<Outline> {
    match FindText(groups, CategoryName(f))
    case Some(k) => groups[k := AddChild(groups[k], ChildOf(f))]
    case None => groups + [Outline(CategoryName(f), None, None, [ChildOf(f)])]
  }

  /** The grouping of `exportFeeds`, with the map lookup reading only
      categories already met. */
  function Group(feeds: seq<StoredFeed>): seq<Outline>
    decreases |feeds|
  {
    if |feeds| == 0 then [] else AddToGroup(Group(feeds[..|feeds| - 1]), feeds[|feeds| - 1])
  }

  /** No two groups share a name. */
  predicate DistinctNames(groups: seq<Outline>) {
    forall i, j :: 0 <= i < j < |groups| ==> groups[i].text != groups[j].text
  }

  /** Each group is a category of the stored feeds holding that category's
      feeds in stored order. */
  predicate GroupBodies(feeds: seq<StoredFeed>, groups: seq<Outline>) {
    forall i :: 0 <= i < |groups| ==>
      && groups[i].xmlUrl.None? && groups[i].htmlUrl.None?
      && groups[i].children == Members(feeds, groups[i].text)
      && FirstOfCategory(feeds, groups[i].text).Some?
  }

  /** Every stored feed's category has a group. */
  predicate Covers(feeds: seq<StoredFeed>, groups: seq<Outline>) {
    forall k :: 0 <= k < |feeds| ==> FindText(groups, CategoryName(feeds[k])).Some?
  }

  /** Groups are ordered by where their category's first feed stands. */
  predicate FirstSeenOrder(feeds: seq<StoredFeed>, groups: seq<Outline>)
    requires GroupBodies(feeds, groups)
  {
    forall i, j :: 0 <= i < j < |groups| ==>
      FirstOfCategory(feeds, groups[i].text).value < FirstOfCategory(feeds, groups[j].text).value
  }

  /** The groups are exactly the categories of the stored feeds, each once,
      ordered by where their first feed stands, and each holds the feeds of
      its category in stored order. */
  predicate GroupsOf(feeds: seq<StoredFeed>, groups: seq<Outline>) {
    && DistinctNames(groups)
    && GroupBodies(feeds, groups)
    && Covers(feeds, groups)
    && FirstSeenOrder(feeds, groups)
  }

  lemma MembersSnoc(feeds: seq<StoredFeed>, f: StoredFeed, name: string)
    ensures Members(feeds + [f], name) == Members(feeds, name) + (if CategoryName(f) == name then [ChildOf(f)] else [])
  {
    assert (feeds + [f])[..|feeds|] == feeds;
  }

  lemma FirstOfCategorySnoc(feeds: seq<StoredFeed>, f: StoredFeed, name: string)
    ensures FirstOfCategory(feeds, name).Some? ==> FirstOfCategory(feeds + [f], name) == FirstOfCategory(feeds, name)
    ensures FirstOfCategory(feeds, name).None? && CategoryName(f) == name ==> FirstOfCategory(feeds + [f], name) == Some(|feeds|)
  {
    assert (feeds + [f])[..|feeds|] == feeds;
  }

  lemma {:induction false} MembersEmpty(feeds: seq<StoredFeed>, name: string)
    requires FirstOfCategory(feeds, name).None?
    ensures Members(feeds, name) == []
    decreases |feeds|
  {
    if |feeds| > 0 {
      var init := feeds[..|feeds| - 1];
      assert forall j :: 0 <= j < |init| ==> init[j] == feeds[j];
      MembersEmpty(init, name);
    }
  }

  /** The grouping step keeps every group's name and position, and appends
      one group when the category is new. */
  lemma AddToGroupNames(groups: seq<Outline>, f: StoredFeed)
    ensures var g := AddToGroup(groups, f);
      && (FindText(groups, CategoryName(f)).Some? ==> |g| == |groups|)
      && (FindText(groups, CategoryName(f)).None? ==> |g| == |groups| + 1 && g[|groups|].text == CategoryName(f))
      && (forall i :: 0 <= i < |groups| ==> g[i].text == groups[i].text)
  {
  }

  lemma AddToGroupDistinct(groups: seq<Outline>, f: StoredFeed)
    requires DistinctNames(groups)
    ensures DistinctNames(AddToGroup(groups, f))
  {
    AddToGroupNames(groups, f);
  }

  lemma AddToGroupCovers(feeds: seq<StoredFeed>, groups: seq<Outline>, f: StoredFeed)
    requires Covers(feeds, groups)
    ensures Covers(feeds + [f], AddToGroup(groups, f))
  {
    var feeds' := feeds + [f];
    var g := AddToGroup(groups, f);
    AddToGroupNames(groups, f);
    forall x | 0 <= x < |feeds'|
      ensures FindText(g, CategoryName(feeds'[x])).Some?
    {
      if x < |feeds| {
        assert feeds'[x] == feeds[x];
        var m := FindText(groups, CategoryName(feeds[x])).value;
        assert g[m].text == CategoryName(feeds'[x]);
      } else if FindText(groups, CategoryName(f)).Some? {
        var m := FindText(groups, CategoryName(f)).value;
        assert g[m].text == CategoryName(feeds'[x]);
      } else {
        assert g[|groups|].text == CategoryName(feeds'[x]);
      }
    }
  }

  /** A category without a group has no stored feed yet. */
  lemma UncoveredIsNew(feeds: seq<StoredFeed>, groups: seq<Outline>, n: string)
    requires Covers(feeds, groups)
    requires FindText(groups, n).None?
    ensures FirstOfCategory(feeds, n).None?
  {
    forall j | 0 <= j < |feeds|
      ensures CategoryName(feeds[j]) != n
    {
      assert FindText(groups, CategoryName(feeds[j])).Some?;
    }
  }

  /** The existing groups keep their first-feed position and gain the new
      feed exactly when it is of their category. */
  lemma OldGroupsAfterStep(feeds: seq<StoredFeed>, groups: seq<Outline>, f: StoredFeed)
    requires GroupBodies(feeds, groups) && DistinctNames(groups)
    ensures var g := AddToGroup(groups, f);
      forall i :: 0 <= i < |groups| ==>
        && g[i].xmlUrl.None? && g[i].htmlUrl.None?
        && g[i].children == Members(feeds + [f], g[i].text)
        && FirstOfCategory(feeds + [f], g[i].text) == FirstOfCategory(feeds, groups[i].text)
  {
    var g := AddToGroup(groups, f);
    AddToGroupNames(groups, f);
    forall i | 0 <= i < |groups|
      ensures g[i].xmlUrl.None? && g[i].htmlUrl.None?
      ensures g[i].children == Members(feeds + [f], g[i].text)
      ensures FirstOfCategory(feeds + [f], g[i].text) == FirstOfCategory(feeds, groups[i].text)
    {
      MembersSnoc(feeds, f, groups[i].text);
      FirstOfCategorySnoc(feeds, f, groups[i].text);
      match FindText(groups, CategoryName(f))
      case Some(k) =>
        if i == k {
          assert g[i].children == groups[i].children + [ChildOf(f)];
        } else {
          assert g[i] == groups[i] && groups[i].text != CategoryName(f);
        }
      case None =>
        assert g[i] == groups[i] && groups[i].text != CategoryName(f);
    }
  }

  lemma AddToGroupBodies(feeds: seq<StoredFeed>, groups: seq<Outline>, f: StoredFeed)
    requires GroupBodies(feeds, groups) && Covers(feeds, groups) && DistinctNames(groups)
    ensures GroupBodies(feeds + [f], AddToGroup(groups, f))
    ensures FindText(groups, CategoryName(f)).None? ==>
      FirstOfCategory(feeds + [f], CategoryName(f)) == Some(|feeds|)
  {
    OldGroupsAfterStep(feeds, groups, f);
    AddToGroupNames(groups, f);
    var n := CategoryName(f);
    if FindText(groups, n).None? {
      UncoveredIsNew(feeds, groups, n);
      FirstOfCategorySnoc(feeds, f, n);
      MembersSnoc(feeds, f, n);
      MembersEmpty(feeds, n);
    }
  }

  lemma AddToGroupOrder(feeds: seq<StoredFeed>, groups: seq<Outline>, f: StoredFeed)
    requires GroupBodies(feeds, groups) && Covers(feeds, groups) && DistinctNames(groups)
    requires FirstSeenOrder(feeds, groups)
    ensures GroupBodies(feeds + [f], AddToGroup(groups, f))
    ensures FirstSeenOrder(feeds + [f], AddToGroup(groups, f))
  {
    AddToGroupBodies(feeds, groups, f);
    forall i, j | 0 <= i < j < |AddToGroup(groups, f)|
      ensures FirstOfCategory(feeds + [f], AddToGroup(groups, f)[i].text).value <
              FirstOfCategory(feeds + [f], AddToGroup(groups, f)[j].text).value
    {
      AddToGroupPair(feeds, groups, f, i, j);
    }
  }

  lemma AddToGroupPair(feeds: seq<StoredFeed>, groups: seq<Outline>, f: StoredFeed, i: int, j: int)
    requires GroupBodies(feeds, groups) && Covers(feeds, groups)
    requires FirstSeenOrder(feeds, groups)
    requires 0 <= i < j < |AddToGroup(groups, f)|
    ensures FirstOfCategory(feeds + [f], AddToGroup(groups, f)[i].text).Some?
    ensures FirstOfCategory(feeds + [f], AddToGroup(groups, f)[j].text).Some?
    ensures FirstOfCategory(feeds + [f], AddToGroup(groups, f)[i].text).value <
            FirstOfCategory(feeds + [f], AddToGroup(groups, f)[j].text).value
  {
    AddToGroupNames(groups, f);
    OldGroupFirst(feeds, groups, f, i);
    if j < |groups| {
      OldGroupFirst(feeds, groups, f, j);
    } else {
      NewGroupFirst(feeds, groups, f);
    }
  }

  /** An existing group keeps its name and its first feed's position. */
  lemma OldGroupFirst(feeds: seq<StoredFeed>, groups: seq<Outline>, f: StoredFeed, i: int)
    requires GroupBodies(feeds, groups)
    requires 0 <= i < |groups|
    ensures i < |AddToGroup(groups, f)| && AddToGroup(groups, f)[i].text == groups[i].text
    ensures FirstOfCategory(feeds + [f], groups[i].text) == FirstOfCategory(feeds, groups[i].text)
    ensures FirstOfCategory(feeds, groups[i].text).Some?
    ensures FirstOfCategory(feeds, groups[i].text).value < |feeds|
  {
    AddToGroupNames(groups, f);
    FirstOfCategorySnoc(feeds, f, groups[i].text);
  }

  /** A group opened by the new feed has it as its first feed. */
  lemma NewGroupFirst(feeds: seq<StoredFeed>, groups: seq<Outline>, f: StoredFeed)
    requires Covers(feeds, groups)
    requires FindText(groups, CategoryName(f)).None?
    ensures |AddToGroup(groups, f)| == |groups| + 1
    ensures AddToGroup(groups, f)[|groups|].text == CategoryName(f)
    ensures FirstOfCategory(feeds + [f], CategoryName(f)) == Some(|feeds|)
  {
    AddToGroupNames(groups, f);
    UncoveredIsNew(feeds, groups, CategoryName(f));
    FirstOfCategorySnoc(feeds, f, CategoryName(f));
  }

  /** The export's grouping meets its reference description. */
  lemma {:induction false} GroupMeetsReference(feeds: seq<StoredFeed>)
    ensures GroupsOf(feeds, Group(feeds))
    decreases |feeds|
  {
    if |feeds| > 0 {
      var init := feeds[..|feeds| - 1];
      var f := feeds[|feeds| - 1];
      GroupMeetsReference(init);
      assert feeds == init + [f];
      AddToGroupDistinct(Group(init), f);
      AddToGroupCovers(init, Group(init), f);
      AddToGroupOrder(init, Group(init), f);
    }
  }

  /** Every stored feed is exported exactly once: the group sizes add up to
      the number of feeds. */
  lemma {:induction false} GroupedChildrenCount(feeds: seq<StoredFeed>)
    ensures |Feeds(Group(feeds))| == |feeds|
    decreases |feeds|
  {
    if |feeds| > 0 {
      var init := feeds[..|feeds| - 1];
      var f := feeds[|feeds| - 1];
      GroupedChildrenCount(init);
      PlaceCount(Group(init), f);
    }
  }

  lemma PlaceCount(groups: seq<Outline>, f: StoredFeed)
    ensures |Feeds(AddToGroup(groups, f))| == |Feeds(groups)| + 1
  {
    match FindText(groups, CategoryName(f))
    case Some(k) =>
      AddChildAt(groups, k, ChildOf(f));
      assert |multiset(Feeds(AddToGroup(groups, f)))| == |multiset(Feeds(groups))| + 1;
    case None =>
      FeedsConcat(groups, [Outline(CategoryName(f), None, None, [ChildOf(f)])]);
      FeedsSingle(Outline(CategoryName(f), None, None, [ChildOf(f)]));
  }

  // ---------------------------------------------------------------------
  // The grouping loop as written, over a plain object
  // ---------------------------------------------------------------------

  /** The names an empty object literal already answers through its
      prototype: the properties of `Object.prototype`. Each of them reads as
      a function or an object, so it is truthy. */
  const InheritedKeys: set<string> := {
    "constructor", "hasOwnProperty", "isPrototypeOf", "propertyIsEnumerable",
    "toString", "toLocaleString", "valueOf", "__proto__",
    "__defineGetter__", "__defineSetter__", "__lookupGetter__", "__lookupSetter__"}

  datatype ExportError = TypeError

  /** The grouping loop of `exportFeeds` as written, with the map an empty
      object literal. The own keys are the names of the groups made so far;
      a name that is not one of them but is inherited reads as truthy, so no
      group is made and the push goes to the inherited member's `children`,
      which is undefined: the export throws. */
  function GroupAsWritten(feeds: seq<StoredFeed>): Result<seq<Outline>, ExportError>
    decreases |feeds|
  {
    if |feeds| == 0 then Success([])
    else
      match GroupAsWritten(feeds[..|feeds| - 1])
      case Failure(e) => Failure(e)
      case Success(groups) =>
        var f := feeds[|feeds| - 1];
        if FindText(groups, CategoryName(f)).None? && CategoryName(f) in InheritedKeys then Failure(TypeError)
        else Success(AddToGroup(groups, f))
  }

  /** Every group is named after some stored feed's category. */
  lemma GroupNamesComeFromFeeds(feeds: seq<StoredFeed>, i: int)
    requires 0 <= i < |Group(feeds)|
    ensures exists k :: 0 <= k < |feeds| && CategoryName(feeds[k]) == Group(feeds)[i].text
  {
    GroupMeetsReference(feeds);
    var k := FirstOfCategory(feeds, Group(feeds)[i].text).value;
    assert CategoryName(feeds[k]) == Group(feeds)[i].text;
  }

  /** While no category met so far is named after an inherited property,
      no group answers to an inherited name. */
  lemma {:induction false} InheritedNameHasNoGroup(feeds: seq<StoredFeed>, n: string)
    requires forall k :: 0 <= k < |feeds| ==> CategoryName(feeds[k]) !in InheritedKeys
    requires n in InheritedKeys
    ensures FindText(Group(feeds), n).None?
  {
    forall j | 0 <= j < |Group(feeds)|
      ensures Group(feeds)[j].text != n
    {
      GroupNamesComeFromFeeds(feeds, j);
    }
  }

  /** The loop as written throws exactly when some category is named after
      an inherited property, and otherwise agrees with `Group`. */
  lemma {:induction false} GroupAsWrittenFails(feeds: seq<StoredFeed>)
    ensures GroupAsWritten(feeds).Failure? <==> exists k :: 0 <= k < |feeds| && CategoryName(feeds[k]) in InheritedKeys
    ensures GroupAsWritten(feeds).Success? ==> GroupAsWritten(feeds).value == Group(feeds)
    decreases |feeds|
  {
    if |feeds| > 0 {
      var init := feeds[..|feeds| - 1];
      var f := feeds[|feeds| - 1];
      GroupAsWrittenFails(init);
      assert forall k :: 0 <= k < |init| ==> init[k] == feeds[k];
      if GroupAsWritten(init).Success? && CategoryName(f) in InheritedKeys {
        InheritedNameHasNoGroup(init, CategoryName(f));
      }
    }
  }

  /** A user with one feed in a category named `constructor`: the export as
      written throws, while the grouping makes the one group. */
  lemma ConstructorCategoryThrows()
    ensures var feeds := [StoredFeed("Feed 1", "https://example.com/feed.xml", None, Some("constructor"))];
      && GroupAsWritten(feeds) == Failure(TypeError)
      && Group(feeds) == [Outline("constructor", None, None, [ChildOf(feeds[0])])]
  {
    var feeds := [StoredFeed("Feed 1", "https://example.com/feed.xml", None, Some("constructor"))];
    assert feeds[..0] == [];
    assert CategoryName(feeds[0]) == "constructor";
  }

  // ---------------------------------------------------------------------
  // The exported document, and reading it back
  // ---------------------------------------------------------------------

  /** The attributes written for a group: `text`, and `xmlUrl` / `htmlUrl`
      only when truthy. */
  function GroupAttrs(g: Outline): (a: Attrs)
    ensures "text" in a && a["text"] == Plain(g.text)
    ensures "xmlUrl" in a <==> Truthy(g.xmlUrl)
    ensures "htmlUrl" in a <==> Truthy(g.htmlUrl)
  {
    var a := map["text" := Plain(g.text)];
    var a := if Truthy(g.xmlUrl) then a["xmlUrl" := Plain(g.xmlUrl.value)] else a;
    if Truthy(g.htmlUrl) then a["htmlUrl" := Plain(g.htmlUrl.value)] else a
  }

  /** The attributes written for a child: all three, with `''` for a falsy
      url or link. */
  function ChildAttrs(c: Outline): Attrs {
    map["text" := Plain(c.text), "xmlUrl" := Plain(Or(c.xmlUrl, "")), "htmlUrl" := Plain(Or(c.htmlUrl, ""))]
  }

  function ChildrenEvents(cs: seq<Outline>): seq<SaxEvent>
    decreases |cs|
  {
    if |cs| == 0 then [] else [Open("outline", ChildAttrs(cs[0])), Close("outline")] + ChildrenEvents(cs[1..])
  }

  function GroupEvents(g: Outline): seq<SaxEvent> {
    [Open("outline", GroupAttrs(g))] + ChildrenEvents(g.children) + [Close("outline")]
  }

  function GroupsEvents(gs: seq<Outline>): seq<SaxEvent>
    decreases |gs|
  {
    if |gs| == 0 then [] else GroupEvents(gs[0]) + GroupsEvents(gs[1..])
  }

  /** The tags around the body outlines: `opml`, `head` with its `title`,
      and `body`. The title's text is not an event the import handles. */
  const Prologue: seq<SaxEvent> := [
    Open("opml", map["version" := Plain("2.0")]), Open("head", map[]), Open("title", map[]),
    Close("title"), Close("head"), Open("body", map[])]

  const Epilogue: seq<SaxEvent> := [Close("body"), Close("opml")]

  /** The exported document, as the events a SAX parser reports for it.
      It is built from the corrected grouping `Group`; the export as written
      reaches it through `GroupAsWrittenFails`, see
      `ExportAsWrittenRoundTrip`. */
  function ExportDocument(feeds: seq<StoredFeed>): seq<SaxEvent> {
    Prologue + GroupsEvents(Group(feeds)) + Epilogue
  }

  /** What the import reads back for an exported child: the url and link
      come back as strings, `''` where they were falsy. */
  function ReadBack(c: Outline): Outline {
    Outline(c.text, Some(Or(c.xmlUrl, "")), Some(Or(c.htmlUrl, "")), [])
  }

  function ReadBackAll(cs: seq<Outline>): (r: seq<Outline>)
    ensures |r| == |cs|
    ensures forall i :: 0 <= i < |cs| ==> r[i] == ReadBack(cs[i])
    decreases |cs|
  {
    if |cs| == 0 then [] else [ReadBack(cs[0])] + ReadBackAll(cs[1..])
  }

  function ReadBackGroups(gs: seq<Outline>): (r: seq<Outline>)
    ensures |r| == |gs|
    ensures forall i :: 0 <= i < |gs| ==> r[i] == Outline(gs[i].text, None, None, ReadBackAll(gs[i].children))
    decreases |gs|
  {
    if |gs| == 0 then [] else [Outline(gs[0].text, None, None, ReadBackAll(gs[0].children))] + ReadBackGroups(gs[1..])
  }

  /** A child the import reads back as a feed: a non-empty title and url. */
  predicate ReadableChild(c: Outline) {
    c.text != "" && Or(c.xmlUrl, "") != ""
  }

  /** A group the import reads back as written: a non-empty name, no url,
      and readable children. */
  predicate ReadableGroup(g: Outline) {
    && g.text != "" && !Truthy(g.xmlUrl)
    && forall j :: 0 <= j < |g.children| ==> ReadableChild(g.children[j])
  }

  predicate Readable(gs: seq<Outline>) {
    forall i :: 0 <= i < |gs| ==> ReadableGroup(gs[i])
  }

  lemma StepPastTags(st: ImportState, events: seq<SaxEvent>)
    requires forall i :: 0 <= i < |events| ==> events[i].Open? || events[i].Close?
    requires forall i :: 0 <= i < |events| ==> (match events[i] case Open(n, _) => n case Close(n) => n) != "outline"
    ensures Run(st, events) == st
    decreases |events|
  {
    if |events| > 0 {
      StepPastTags(st, events[1..]);
    }
  }

  /** The open tag of a readable child under the category opened last adds
      its read-back feed to that category. */
  lemma ChildOpen(pre: seq<Outline>, g: Outline, t: seq<Kind>, c: Outline)
    requires |t| > 0 && t[|t| - 1] == CategoryKind
    requires ReadableChild(c)
    ensures Step(ImportState(pre + [g], t), Open("outline", ChildAttrs(c))) ==
      ImportState(pre + [AddChild(g, ReadBack(c))], t + [FeedKind])
  {
    assert FeedOf(ChildAttrs(c)) == ReadBack(c);
    assert AttrTruthy(ChildAttrs(c), "text") && AttrTruthy(ChildAttrs(c), "xmlUrl");
    assert (pre + [g])[|pre| := AddChild(g, ReadBack(c))] == pre + [AddChild(g, ReadBack(c))];
  }

  /** A readable child's open and close tags add it to the category opened
      last and return to that category. */
  lemma ChildRoundTrip(pre: seq<Outline>, g: Outline, t: seq<Kind>, c: Outline)
    requires |t| > 0 && t[|t| - 1] == CategoryKind
    requires ReadableChild(c)
    ensures Run(ImportState(pre + [g], t), [Open("outline", ChildAttrs(c)), Close("outline")]) ==
      ImportState(pre + [AddChild(g, ReadBack(c))], t)
  {
    var st := ImportState(pre + [g], t);
    var st1 := ImportState(pre + [AddChild(g, ReadBack(c))], t + [FeedKind]);
    var evs := [Open("outline", ChildAttrs(c)), Close("outline")];
    ChildOpen(pre, g, t, c);
    assert Run(st, evs) == Run(st1, evs[1..]);
    assert (t + [FeedKind])[..|t|] == t;
    assert Step(st1, Close("outline")) == ImportState(pre + [AddChild(g, ReadBack(c))], t);
    assert Run(st1, evs[1..]) == Run(Step(st1, Close("outline")), evs[1..][1..]);
  }

  /** Readable children under the category opened last all join it, in
      order, and the stack is back at the category afterwards. */
  lemma {:induction false} ChildrenRoundTrip(pre: seq<Outline>, g: Outline, t: seq<Kind>, cs: seq<Outline>)
    requires |t| > 0 && t[|t| - 1] == CategoryKind
    requires forall j :: 0 <= j < |cs| ==> ReadableChild(cs[j])
    ensures Run(ImportState(pre + [g], t), ChildrenEvents(cs)) ==
      ImportState(pre + [g.(children := g.children + ReadBackAll(cs))], t)
    decreases |cs|
  {
    if |cs| == 0 {
      assert g.children + [] == g.children;
    } else {
      var c := cs[0];
      var g' := AddChild(g, ReadBack(c));
      var head := [Open("outline", ChildAttrs(c)), Close("outline")];
      var st := ImportState(pre + [g], t);
      assert ChildrenEvents(cs) == head + ChildrenEvents(cs[1..]);
      ChildRoundTrip(pre, g, t, c);
      RunConcat(st, head, ChildrenEvents(cs[1..]));
      ChildrenRoundTrip(pre, g', t, cs[1..]);
      ReadBackAllCons(g.children, cs);
    }
  }

  lemma ReadBackAllCons(before: seq<Outline>, cs: seq<Outline>)
    requires |cs| > 0
    ensures (before + [ReadBack(cs[0])]) + ReadBackAll(cs[1..]) == before + ReadBackAll(cs)
  {
  }

  /** One exported group is read back as one category holding its children. */
  lemma GroupRoundTrip(pre: seq<Outline>, t: seq<Kind>, g: Outline)
    requires ReadableGroup(g)
    ensures Run(ImportState(pre, t), GroupEvents(g)) ==
      ImportState(pre + [Outline(g.text, None, None, ReadBackAll(g.children))], t)
  {
    var cat := Outline(g.text, None, None, []);
    var st1 := Step(ImportState(pre, t), Open("outline", GroupAttrs(g)));
    assert st1 == ImportState(pre + [cat], t + [CategoryKind]);
    ChildrenRoundTrip(pre, cat, t + [CategoryKind], g.children);
    assert cat.children + ReadBackAll(g.children) == ReadBackAll(g.children);
    var mid := pre + [Outline(g.text, None, None, ReadBackAll(g.children))];
    RunConcat(ImportState(pre, t), [Open("outline", GroupAttrs(g))], ChildrenEvents(g.children));
    RunConcat(ImportState(pre, t), [Open("outline", GroupAttrs(g))] + ChildrenEvents(g.children), [Close("outline")]);
    assert (t + [CategoryKind])[..|t|] == t;
    assert Run(ImportState(mid, t + [CategoryKind]), [Close("outline")]) == ImportState(mid, t);
  }

  lemma ReadableTail(gs: seq<Outline>)
    requires Readable(gs) && |gs| > 0
    ensures Readable(gs[1..]) && ReadableGroup(gs[0])
  {
    assert forall i :: 0 <= i < |gs[1..]| ==> gs[1..][i] == gs[i + 1];
  }

  lemma {:induction false} GroupsRoundTrip(pre: seq<Outline>, t: seq<Kind>, gs: seq<Outline>)
    requires Readable(gs)
    ensures Run(ImportState(pre, t), GroupsEvents(gs)) == ImportState(pre + ReadBackGroups(gs), t)
    decreases |gs|
  {
    if |gs| == 0 {
      assert pre + [] == pre;
    } else {
      var g := gs[0];
      var back := Outline(g.text, None, None, ReadBackAll(g.children));
      assert GroupsEvents(gs) == GroupEvents(g) + GroupsEvents(gs[1..]);
      ReadableTail(gs);
      GroupRoundTrip(pre, t, g);
      RunConcat(ImportState(pre, t), GroupEvents(g), GroupsEvents(gs[1..]));
      GroupsRoundTrip(pre + [back], t, gs[1..]);
      ReadBackGroupsCons(pre, gs);
    }
  }

  lemma ReadBackGroupsCons(pre: seq<Outline>, gs: seq<Outline>)
    requires |gs| > 0
    ensures (pre + [Outline(gs[0].text, None, None, ReadBackAll(gs[0].children))]) + ReadBackGroups(gs[1..]) ==
      pre + ReadBackGroups(gs)
  {
  }

  /** The children of a category are readable when every stored feed has a
      title and a url. */
  lemma {:induction false} MembersReadable(feeds: seq<StoredFeed>, name: string)
    requires forall k :: 0 <= k < |feeds| ==> feeds[k].title != "" && feeds[k].url != ""
    ensures forall j :: 0 <= j < |Members(feeds, name)| ==> ReadableChild(Members(feeds, name)[j])
    decreases |feeds|
  {
    if |feeds| > 0 {
      var init := feeds[..|feeds| - 1];
      assert forall k :: 0 <= k < |init| ==> init[k] == feeds[k];
      MembersReadable(init, name);
    }
  }

  /** When every stored feed has a title and a url, the import reads the
      export's groups back as written. */
  lemma {:induction false} GroupReadable(feeds: seq<StoredFeed>)
    requires forall k :: 0 <= k < |feeds| ==> feeds[k].title != "" && feeds[k].url != ""
    ensures Readable(Group(feeds))
  {
    forall i | 0 <= i < |Group(feeds)|
      ensures ReadableGroup(Group(feeds)[i])
    {
      GroupMeetsReference(feeds);
      MembersReadable(feeds, Group(feeds)[i].text);
      GroupNamesComeFromFeeds(feeds, i);
    }
  }

  /** Importing an exported file gives back the export's groups: the same
      categories in the same order, each with its feeds in the same order,
      the link of a feed without one coming back as `''`. This needs every
      feed to have a title and a url: an outline without `text` is ignored
      by the import (while its close still pops the stack), and one with an
      empty `xmlUrl` is read as a category. */
  lemma {:induction false} ExportImportRoundTrip(feeds: seq<StoredFeed>)
    requires forall k :: 0 <= k < |feeds| ==> feeds[k].title != "" && feeds[k].url != ""
    ensures Import(ExportDocument(feeds)) == ReadBackGroups(Group(feeds))
  {
    GroupReadable(feeds);
    DocumentRoundTrip(Group(feeds));
  }

  /** The same round trip for the export as written: its grouping succeeds
      exactly when no category is named after an inherited property, and
      then the file it writes imports as the export's groups. */
  lemma ExportAsWrittenRoundTrip(feeds: seq<StoredFeed>)
    requires forall k :: 0 <= k < |feeds| ==> feeds[k].title != "" && feeds[k].url != ""
    ensures GroupAsWritten(feeds).Success? <==> forall k :: 0 <= k < |feeds| ==> CategoryName(feeds[k]) !in InheritedKeys
    ensures GroupAsWritten(feeds).Success? ==>
      Import(Prologue + GroupsEvents(GroupAsWritten(feeds).value) + Epilogue) == ReadBackGroups(GroupAsWritten(feeds).value)
  {
    GroupAsWrittenFails(feeds);
    if GroupAsWritten(feeds).Success? {
      ExportImportRoundTrip(feeds);
    }
  }

  /** The tags around the body outlines leave the import's state alone. */
  lemma FrameIgnored(st: ImportState)
    ensures Run(st, Prologue) == st && Run(st, Epilogue) == st
  {
    StepPastTags(st, Prologue);
    StepPastTags(st, Epilogue);
  }

  lemma {:induction false} DocumentRoundTrip(gs: seq<Outline>)
    requires Readable(gs)
    ensures Run(Initial, Prologue + GroupsEvents(gs) + Epilogue) == ImportState(ReadBackGroups(gs), [])
  {
    FrameIgnored(Initial);
    FrameIgnored(ImportState(ReadBackGroups(gs), []));
    RunConcat(Initial, Prologue, GroupsEvents(gs));
    RunConcat(Initial, Prologue + GroupsEvents(gs), Epilogue);
    GroupsRoundTrip([], [], gs);
  }
}
