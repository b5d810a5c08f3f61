/**
 * The dashboard and its likes and bookmarks pages: signed-in users see the items whose
 * ids are in their preference lists, in item order; ids with no item are dropped.
 */
module Dashboard {
  import opened Wrappers
  import opened Seqs
  import opened Types
  import opened Supabase

  /** The items whose id is in `ids`, each as often as it occurs, in item order. */
  function PersonalItems(items: seq<Item>, ids: seq<Id>): (kept: seq<Item>)
    ensures forall i :: 0 <= i < |kept| ==> kept[i] in items && kept[i].id in ids
    ensures forall i :: 0 <= i < |items| && items[i].id in ids ==> items[i] in kept
    ensures forall x: Item :: multiset(kept)[x] == if x.id in ids then multiset(items)[x] else 0
    ensures IsSubsequence(kept, items)
  {
    FilterMultiset(items, (x: Item) => x.id in ids);
    Filter(items, (x: Item) => x.id in ids)
  }

  /** An id that names no item adds nothing to the list. */
  lemma DanglingIdIgnored(items: seq<Item>, ids: seq<Id>, dangling: Id)
    requires forall i :: 0 <= i < |items| ==> items[i].id != dangling
    ensures PersonalItems(items, ids + [dangling]) == PersonalItems(items, ids)
  {
    FilterCongruence(items, (x: Item) => x.id in ids + [dangling], (x: Item) => x.id in ids);
  }

  /** Only which ids occur matters: order and repetition of the ids do not. */
  lemma OnlyIdSetMatters(items: seq<Item>, a: seq<Id>, b: seq<Id>)
    requires forall id :: id in a <==> id in b
    ensures PersonalItems(items, a) == PersonalItems(items, b)
  {
    FilterCongruence(items, (x: Item) => x.id in a, (x: Item) => x.id in b);
  }

  /** A tab's content: the empty-state message, or a grid of the items. */
  datatype Panel = EmptyState | Grid(items: seq<Item>)

  /** A tab with the count in its label and its content. */
  datatype Tab = Tab(count: nat, panel: Panel)

  /** A tab for a list: its length for the label, and a grid of it, or the empty-state message when it is empty. */
  function TabFor(list: seq<Item>): (tab: Tab)
    ensures tab.count == |list|
    ensures tab.panel.EmptyState? <==> |list| == 0
    ensures tab.panel.Grid? ==> tab.panel.items == list
  {
    Tab(|list|, if |list| > 0 then Grid(list) else EmptyState)
  }

  /** A page either redirects an anonymous visitor home or renders a view. */
  datatype Page<V> = RedirectHome | Render(view: V)

  datatype DashboardView = DashboardView(bookmarks: Tab, likes: Tab, prefs: Preferences)

  /** The dashboard: the sign-in guard, the preference defaults, and the two tabs, given how the preference read ended. */
  function DashboardPage(userId: Option<string>, read: ReadResult, items: seq<Item>): (page: Page<DashboardView>)
    ensures userId.None? <==> page.RedirectHome?
    ensures page.Render? ==>
      var prefs := ReadPreferences(DataOf(read));
      && page.view.prefs == prefs
      && page.view.likes == TabFor(PersonalItems(items, prefs.likes))
      && page.view.bookmarks == TabFor(PersonalItems(items, prefs.bookmarks))
  {
    match userId
    case None => RedirectHome
    case Some(_) =>
      var prefs := ReadPreferences(DataOf(read));
      Render(DashboardView(
        TabFor(PersonalItems(items, prefs.bookmarks)),
        TabFor(PersonalItems(items, prefs.likes)),
        prefs))
  }

  datatype ListView = ListView(panel: Panel, prefs: Preferences)

  /** The likes page (column `Likes`) or the bookmarks page (column `Bookmarks`), given how the preference read ended. */
  function ListPage(userId: Option<string>, read: ReadResult, items: seq<Item>, column: Column): (page: Page<ListView>)
    ensures userId.None? <==> page.RedirectHome?
    ensures page.Render? ==>
      var prefs := ReadPreferences(DataOf(read));
      var list := PersonalItems(items, ListOf(prefs, column));
      && page.view.prefs == prefs
      && (page.view.panel.Grid? <==> |list| > 0)
      && (page.view.panel.Grid? ==> page.view.panel.items == list)
  {
    match userId
    case None => RedirectHome
    case Some(_) =>
      var prefs := ReadPreferences(DataOf(read));
      Render(ListView(TabFor(PersonalItems(items, ListOf(prefs, column))).panel, prefs))
  }

  /** The likes page: the grid of liked items, or the empty state when there are none. */
  function LikesPage(userId: Option<string>, read: ReadResult, items: seq<Item>): (page: Page<ListView>)
    ensures userId.None? <==> page.RedirectHome?
    ensures page.Render? ==>
      var likes := ReadPreferences(DataOf(read)).likes;
      && (page.view.panel.Grid? <==> exists i :: 0 <= i < |items| && items[i].id in likes)
      && (page.view.panel.Grid? ==> page.view.panel.items == PersonalItems(items, likes))
  {
    match userId
    case None => ListPage(userId, read, items, Likes)
    case Some(_) =>
      NonEmptyIffSomeMatch(items, ReadPreferences(DataOf(read)).likes);
      ListPage(userId, read, items, Likes)
  }

  /** The bookmarks page: the grid of bookmarked items, or the empty state when there are none. */
  function BookmarksPage(userId: Option<string>, read: ReadResult, items: seq<Item>): (page: Page<ListView>)
    ensures userId.None? <==> page.RedirectHome?
    ensures page.Render? ==>
      var bookmarks := ReadPreferences(DataOf(read)).bookmarks;
      && (page.view.panel.Grid? <==> exists i :: 0 <= i < |items| && items[i].id in bookmarks)
      && (page.view.panel.Grid? ==> page.view.panel.items == PersonalItems(items, bookmarks))
  {
    match userId
    case None => ListPage(userId, read, items, Bookmarks)
    case Some(_) =>
      NonEmptyIffSomeMatch(items, ReadPreferences(DataOf(read)).bookmarks);
      ListPage(userId, read, items, Bookmarks)
  }

  /** The personal list is non-empty exactly when some item's id is among the ids. */
  lemma NonEmptyIffSomeMatch(items: seq<Item>, ids: seq<Id>)
    ensures |PersonalItems(items, ids)| > 0 <==> exists i :: 0 <= i < |items| && items[i].id in ids
  {
    var kept := PersonalItems(items, ids);
    if |kept| > 0 {
      assert kept[0] in items;
    }
  }

  /** The likes and bookmarks pages show what the dashboard's matching tabs show. */
  lemma ListPagesAgreeWithDashboard(userId: string, read: ReadResult, items: seq<Item>)
    ensures LikesPage(Some(userId), read, items).view.panel
      == DashboardPage(Some(userId), read, items).view.likes.panel
    ensures BookmarksPage(Some(userId), read, items).view.panel
      == DashboardPage(Some(userId), read, items).view.bookmarks.panel
  {
  }

  /**
   * When the read returns no row, both tabs are empty whatever the items. A failed read
   * counts too: the page ignores the error, so the lists in the table are not shown.
   */
  lemma NoRowNoItems(userId: string, read: ReadResult, items: seq<Item>)
    requires !read.Row?
    ensures DashboardPage(Some(userId), read, items).view.likes == Tab(0, EmptyState)
    ensures DashboardPage(Some(userId), read, items).view.bookmarks == Tab(0, EmptyState)
  {
  }
}
