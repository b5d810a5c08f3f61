/** The landing page: query normalisation, the search filter, and which grids it shows. */
module HomePage {
  import opened Wrappers
  import opened Seqs
  import opened Text
  import opened Types
  import opened GoogleSheets
  import opened Supabase

  /** The search query as the page uses it: lower-cased, and empty when the parameter is absent. */
  function NormalizeQuery(q: Option<string>): (query: string)
    ensures q.None? ==> query == ""
    ensures q.Some? ==> |query| == |q.value|
    ensures q.Some? ==> forall i :: 0 <= i < |query| ==> query[i] == LowerChar(q.value[i])
    ensures Lower(query) == query
  {
    match q
    case None => ""
    case Some(s) =>
      LowerIdempotent(s);
      Lower(s)
  }

  /** The item to open on arrival: an absent or empty `item` parameter selects nothing. */
  function SelectedItemId(item: Option<string>): (id: Option<string>)
    ensures id.Some? <==> item.Some? && item.value != ""
    ensures id.Some? ==> id == item
  {
    if item.Some? && item.value != "" then item else None
  }

  /** The lower-cased title, description or some lower-cased tag contains `query`. */
  predicate MatchesQuery(item: Item, query: string) {
    || Contains(Lower(item.title), query)
    || Contains(Lower(item.description), query)
    || exists t :: t in item.tags && Contains(Lower(t), query)
  }

  /**
   * The search results: every matching item, each as often as it occurs, in list order.
   * An empty query keeps the list as fetched.
   */
  function SearchItems(items: seq<Item>, query: string): (found: seq<Item>)
    ensures forall i :: 0 <= i < |found| ==> found[i] in items && MatchesQuery(found[i], query)
    ensures forall i :: 0 <= i < |items| && MatchesQuery(items[i], query) ==> items[i] in found
    ensures forall x :: multiset(found)[x] == if MatchesQuery(x, query) then multiset(items)[x] else 0
    ensures IsSubsequence(found, items)
    ensures query == "" ==> found == items
  {
    if query != "" then
      FilterMultiset(items, x => MatchesQuery(x, query));
      Filter(items, x => MatchesQuery(x, query))
    else
      SubsequenceOfItself(items);
      forall x ensures MatchesQuery(x, "") {
        ContainsEmpty(Lower(x.title));
      }
      items
  }

  /** The empty-query shortcut changes nothing: filtering with "" would keep every item too. */
  lemma EmptyQueryShortcut(items: seq<Item>)
    ensures Filter(items, x => MatchesQuery(x, "")) == items
  {
    forall x | x in items ensures MatchesQuery(x, "") {
      ContainsEmpty(Lower(x.title));
    }
    FilterAll(items, x => MatchesQuery(x, ""));
  }

  /** A tag equal to the query up to case is found, whatever case the query was typed in. */
  lemma TagMatchIgnoresCase(item: Item, q: string, tag: string)
    requires tag in item.tags
    requires Lower(tag) == Lower(q)
    ensures MatchesQuery(item, NormalizeQuery(Some(q)))
  {
    var query := NormalizeQuery(Some(q));
    assert Lower(tag)[0..|query|] == query;
    assert OccursAt(Lower(tag), query, 0);
  }

  /** With a query typed in different cases, the search finds the same items. */
  lemma SearchIgnoresQueryCase(items: seq<Item>, q1: string, q2: string)
    requires Lower(q1) == Lower(q2)
    ensures SearchItems(items, NormalizeQuery(Some(q1))) == SearchItems(items, NormalizeQuery(Some(q2)))
  {
  }

  /**
   * The preferences the landing page passes down, given how its read ended: none without
   * a user, and empty lists when no row came back, whether it is missing or the read failed.
   */
  function HomePreferences(userId: Option<string>, read: ReadResult): (p: Preferences)
    ensures userId.None? ==> p == Preferences([], [])
    ensures userId.Some? && !read.Row? ==> p == Preferences([], [])
    ensures userId.Some? && read.Row? ==>
      p.likes == read.row.likes.GetOr([]) && p.bookmarks == read.row.bookmarks.GetOr([])
  {
    match userId
    case None => Preferences([], [])
    case Some(_) => ReadPreferences(DataOf(read))
  }

  datatype SectionKind = SearchResults | NewAdditions | Trending | ExploreAll

  /** One grid on the page, with the items it is given. */
  datatype Section = Section(kind: SectionKind, items: seq<Item>)

  datatype HomeView = HomeView(query: string, selectedId: Option<string>, sections: seq<Section>, prefs: Preferences)

  /** The browsing grids for given feeds: each feed when non-empty, then every item. */
  function Assemble(newItems: seq<Item>, trending: seq<Item>, items: seq<Item>): (sections: seq<Section>)
    ensures 1 <= |sections| <= 3
    ensures sections[|sections| - 1] == Section(ExploreAll, items)
    ensures Section(NewAdditions, newItems) in sections <==> |newItems| > 0
    ensures Section(Trending, trending) in sections <==> |trending| > 0
    ensures forall k :: 0 <= k < |sections| ==> sections[k].items in {newItems, trending, items}
    ensures forall k :: 0 <= k < |sections| - 1 ==> sections[k] in {Section(NewAdditions, newItems), Section(Trending, trending)}
    ensures |sections| == 3 ==> sections[0].kind == NewAdditions && sections[1].kind == Trending
  {
    var newSection := if |newItems| > 0 then [Section(NewAdditions, newItems)] else [];
    var trendingSection := if |trending| > 0 then [Section(Trending, trending)] else [];
    newSection + trendingSection + [Section(ExploreAll, items)]
  }

  /** The grids shown without a query: new, then trending, each only when non-empty, and last every item. */
  function BrowseSections(items: seq<Item>, now: int): (sections: seq<Section>)
    ensures 1 <= |sections| <= 3
    ensures sections[|sections| - 1] == Section(ExploreAll, items)
    ensures Section(NewAdditions, NewItems(items, now)) in sections <==> |NewItems(items, now)| > 0
    ensures Section(Trending, TrendingItems(items)) in sections <==> |TrendingItems(items)| > 0
    ensures forall k :: 0 <= k < |sections| ==> multiset(sections[k].items) <= multiset(items)
    ensures forall k :: 0 <= k < |sections| - 1 ==>
      sections[k] in {Section(NewAdditions, NewItems(items, now)), Section(Trending, TrendingItems(items))}
    ensures |sections| == 3 ==> sections[0].kind == NewAdditions && sections[1].kind == Trending
  {
    FeedsDrawFromItems(items, now);
    Assemble(NewItems(items, now), TrendingItems(items), items)
  }

  /** The landing page: with a query, one grid of search results; without, the browsing grids. */
  function Home(q: Option<string>, itemParam: Option<string>, items: seq<Item>, now: int,
                userId: Option<string>, read: ReadResult): (view: HomeView)
    ensures view.query == NormalizeQuery(q)
    ensures view.selectedId == SelectedItemId(itemParam)
    ensures view.prefs == HomePreferences(userId, read)
    ensures view.query != "" ==> view.sections == [Section(SearchResults, SearchItems(items, view.query))]
    ensures view.query == "" ==> view.sections == BrowseSections(items, now)
    ensures forall k :: 0 <= k < |view.sections| ==> multiset(view.sections[k].items) <= multiset(items)
    ensures view.selectedId.Some? <==> itemParam.Some? && itemParam.value != ""
    ensures userId.None? ==> view.prefs == Preferences([], [])
  {
    var query := NormalizeQuery(q);
    var sections :=
      if query != "" then
        var found := SearchItems(items, query);
        SubsequenceMultiset(found, items);
        [Section(SearchResults, found)]
      else BrowseSections(items, now);
    HomeView(query, SelectedItemId(itemParam), sections, HomePreferences(userId, read))
  }

  /** Both feeds take their items from the fetched list. */
  lemma FeedsDrawFromItems(items: seq<Item>, now: int)
    ensures multiset(NewItems(items, now)) <= multiset(items)
    ensures multiset(TrendingItems(items)) <= multiset(items)
  {
    var f := Filter(items, x => IsNewItem(x, now));
    PrefixIsSubsequence(NewItems(items, now), f);
    SubsequenceMultiset(NewItems(items, now), f);
    SubsequenceMultiset(f, items);
    var sorted := SortByScore(items);
    assert sorted == TrendingItems(items) + sorted[|TrendingItems(items)|..];
  }
}
