# Directory template: the pure rules, modelled in Dafny

The directory template is a small web application. It reads a curated list of items
(title, description, tags, link, like and bookmark counts) from a spreadsheet. It shows
them in a searchable grid that reveals more cards as the user scrolls. Signed-in users
can like and bookmark items, and a hosted database stores those preferences.

Most of the code is markup and calls to hosted services. This project models the
deterministic rules underneath them as pure Dafny functions over immutable records:

- **Feed derivation** (`GoogleSheets`). Spreadsheet rows become `Item`s. `isNewItem`
  looks back seven days. `getNewItems` keeps the first eight new items.
  `getTrendingItems` sorts a copy by like-plus-bookmark score, stably and in descending
  order, and keeps the top eight. A failed fetch gives an empty item list.
- **Preference toggles** (`Supabase`). A toggle flips one id's membership in the likes
  or bookmarks list. A present id is removed everywhere; an absent id is appended. The
  toggle upserts the one column it changed and reports the new membership.
- **Localized copy** (`Contents`). The content list is reduced to a key-to-text map for
  one language. The last entry for a key wins.
- **Landing page** (`HomePage`). The query is lower-cased. The search keeps items whose
  title, description or some tag contains the query. The page shows either the search
  results or the new, trending and all-items grids.
- **Grid** (`GridView`). The grid shows a prefix of 12 cards that grows by 8. It also
  tracks which item the detail view shows.
- **Card and detail buttons** (`LocalToggle`, `CardItem`, `ItemModal`). A local flag
  is overwritten by the value the store's toggle returns, and a toast reports the
  outcome. Without a user only a sign-in toast appears. The card summarises tags, and
  both views fall back to a placeholder image. The detail view shows "Unknown date" for an unparseable date.
  The detail view's like and bookmark handlers (components/item-modal.tsx, lines
  43-103) are the card's apart from the click event's propagation, so both use
  `LocalToggle.Handle` and `LocalToggle.FeedbackOf`.
- **Dashboard pages** (`Dashboard`). Anonymous visitors are redirected. Signed-in users
  see the items whose ids are in their lists, in item order; ids that name no item are
  dropped.
- **Refresh endpoint** (`RefreshRoute`). A bearer-token check in the manner of section
  2.1 of RFC 6750 leads to a 401, 200 or 500 response.

The modules are `Wrappers` (`Option`), `Seqs` (JavaScript's `slice` and `filter`, and
subsequences), `Text` (`toLowerCase`, `includes`, `split`, `trim`, `parseInt`) and
`Types` (`Item`, `Content`). The remaining modules each follow one source file.
Strings are `seq<char>`, and counts are `nat`. A creation date is an `Option<int>` of
milliseconds, where `None` means the text did not parse.

Four behaviours of the code are easy to get wrong, and the model states each one:

- "New" has no upper bound: an item dated in the future counts as new
  (`GoogleSheets.FutureItemsAreNew`).
- Empty tags are kept: an empty tags cell gives one empty tag
  (`GoogleSheets.EmptyTagsCell`).
- Toggling twice always restores membership, but restores the exact list only in two
  cases: the id was absent, or it occurred exactly once and last. Otherwise the id moves
  to the end and its duplicates collapse (`Supabase.ToggleTwice`).
- The `Bearer ` prefix is matched case-sensitively, so `bearer <key>` is refused
  (`RefreshRoute.LowercaseSchemeRejected`). Section 2.1 of RFC 7235 makes the scheme
  name case-insensitive.

## Model

| member | source | states |
|---|---|---|
| `GoogleSheets.ParseTags` | lib/google-sheets.ts:60 | The tags cell yields one tag more than it has commas. The cell is the comma-join of comma-free fields, and tag k is field k with its edge white space cut off. Every tag is comma-free and has no white space at either end. |
| `GoogleSheets.EmptyTagsCell` | lib/google-sheets.ts:60 | An empty or missing tags cell gives exactly one empty tag, not an empty list. |
| `GoogleSheets.TagsAroundCommasTrimmed` | lib/google-sheets.ts:60 | The cell `ai , web` gives exactly the tags `ai` and `web`. |
| `GoogleSheets.TagsRoundTrip` | lib/google-sheets.ts:60 | Comma-free, already-trimmed tags survive being joined with commas and parsed back. |
| `GoogleSheets.RowToItem` | lib/google-sheets.ts:55-65 | The text columns are taken by position (id, title, description, image, URL). The tags are `ParseTags` of the tags cell: its comma-separated pieces, each trimmed, and `[""]` when the cell is missing. A present, non-empty like or bookmark cell is read with `parseInt` (`Text.ParseCount`); a missing or empty one gives count 0. A missing date cell gives no date; otherwise the date is the parse of the cell. |
| `GoogleSheets.RowRoundTrip` | lib/google-sheets.ts:55-65 | An item written as a nine-column row maps back to the same item. This covers position of columns, tag splitting, and decimal counts. |
| `Text.ParseShowNat` | lib/google-sheets.ts:63-64 | A count written in decimal parses back to the same count. |
| `Text.Trim` | lib/google-sheets.ts:60 | The result has no white space at either end. It is a slice of the input with only white space outside it. |
| `Text.SplitJoin` | lib/google-sheets.ts:60 | Splitting on a separator inverts joining with it when no piece contains the separator. |
| `Text.JoinSplit` | lib/google-sheets.ts:60 | Joining the pieces of a split restores the original string. |
| `GoogleSheets.FetchItems` | lib/google-sheets.ts:45-78 | A failed read gives no items, with no error escaping. Absent `values` give no items. Otherwise there is one item per row, each the mapping of its row. |
| `GoogleSheets.FetchContents` | lib/google-sheets.ts:15-43 | A failed read falls back to the bundled default contents. Absent `values` give no contents. Otherwise there is one content entry per row, each the mapping of its row. |
| `GoogleSheets.FutureItemsAreNew` | lib/google-sheets.ts:86-91 | There is no upper bound: an item dated at or after `now` is new. |
| `GoogleSheets.UndatedItemsAreNotNew` | lib/google-sheets.ts:87-91 | An unparseable creation date makes an item not new. |
| `GoogleSheets.NewnessFades` | lib/google-sheets.ts:86-91 | An item new at some time is new at every earlier time: the window trails `now`. |
| `GoogleSheets.NewItemsSpec` | lib/google-sheets.ts:106-108 | The new-items feed is a prefix of the input's new items, in input order. Its length is min(8, number of new items). When it is shorter than 8 it holds every new item. |
| `GoogleSheets.InsertByScore` | lib/google-sheets.ts:97-101 | Inserting into a list sorted by descending score keeps it sorted and adds exactly the one item. |
| `GoogleSheets.SortByScore` | lib/google-sheets.ts:96-101 | The sorted copy is a permutation of the items, in non-increasing score. |
| `GoogleSheets.SortKeepsTies` | lib/google-sheets.ts:97-101 | The sort is stable: the items with any one score appear in their input order. |
| `GoogleSheets.TrendingShape` | lib/google-sheets.ts:95-103 | The trending feed has min(8, \|items\|) items, all drawn from the input, in non-increasing score. |
| `GoogleSheets.TrendingKeepsTies` | lib/google-sheets.ts:95-103 | For every score, the feed's items with that score are a prefix of the input's items with that score. |
| `GoogleSheets.TrendingIsTop` | lib/google-sheets.ts:95-103 | No item left out of the trending feed scores higher than an item in it. |
| `Supabase.ReadPreferences` | lib/supabase.ts:50-52 | A missing row, or a null column, reads as an empty list. |
| `Supabase.DataOf` | lib/supabase.ts:38-46 | Callers see a row only when the read returned one. A missing row and a failed request both look like null. |
| `Supabase.RemoveAll` | lib/supabase.ts:55 | Every occurrence of the id is removed. Every other id keeps its count, and the result is an order-preserving subsequence. |
| `Supabase.ToggleMembership` | lib/supabase.ts:53-55 | A present id is removed everywhere, keeping the rest in order. An absent id is appended. Afterwards the id occurs at most once, and no other id changes count. The flag is the new membership, the negation of the old. |
| `Supabase.ToggleTwice` | lib/supabase.ts:55 | Toggling twice restores membership. It restores the exact list iff the id was absent, or occurred exactly once and last. |
| `Supabase.Toggle` | lib/supabase.ts:48-66 | The toggle works on the list its read returned, and a missing row or a failed read counts as empty. It returns the negated old membership. Its payload is the toggled list for that user and that column only. After a failed read the flag is set and the payload is just the item. |
| `Supabase.Upsert` | lib/supabase.ts:57-63 | A failed upsert leaves the store exactly as it was. A successful one sets the user's row: the payload's column holds the payload's list. The other column keeps its stored value, or is null for a new row. Other users' rows are untouched either way. |
| `Supabase.ToggleThenUpsert` | lib/supabase.ts:57-65 | After a successful toggle the store holds the toggled list and the flag equals the stored membership. The other column and other users are unchanged. |
| `Supabase.FlagIgnoresUpsertFailure` | lib/supabase.ts:57-65 | The flag is computed without looking at the upsert. When the write fails the store is unchanged and the flag contradicts it. |
| `Supabase.FailedReadOverwrites` | lib/supabase.ts:50-65 | A failed read is taken for an empty list. The toggle then reports the item as added, and a successful upsert stores just that item, dropping every other id the column held. |
| `Supabase.ToggleTwiceThroughStore` | lib/supabase.ts:48-66 | Two successful toggles of one id return opposite flags and restore its stored membership. |
| `Contents.ContentsForLanguage` | lib/contents.ts:7-11 | A key is in the map iff some entry of the language has it. Its text is the text of the last such entry. |
| `Contents.NoContentsNoCopy` | lib/contents.ts:7-11 | An empty content list gives an empty map. |
| `Contents.OtherLanguagesIgnored` | lib/contents.ts:8 | Appending an entry of another language leaves the map unchanged. |
| `HomePage.NormalizeQuery` | app/page.tsx:21 | An absent query becomes the empty string. Otherwise each character of the query is the lower-case fold of the typed character, at the same position. |
| `HomePage.SelectedItemId` | app/page.tsx:22 | An absent or empty `item` parameter selects nothing. Otherwise it is selected as given. |
| `HomePage.SearchItems` | app/page.tsx:32-39 | Every occurrence of a matching item is kept, and nothing else. The result is an order-preserving subsequence, and an empty query returns the list exactly. |
| `HomePage.EmptyQueryShortcut` | app/page.tsx:32-39 | Filtering with the empty query would keep every item, so the shortcut agrees with the filter. |
| `HomePage.TagMatchIgnoresCase` | app/page.tsx:34-37 | A tag equal to the query up to case matches, whatever case the query was typed in. |
| `HomePage.SearchIgnoresQueryCase` | app/page.tsx:21 | Queries that differ only in case find the same items. |
| `HomePage.HomePreferences` | app/page.tsx:45-52 | Given how the preference read ended: with no user, or when the read returns no row (none stored, or a failed read whose error is ignored), likes and bookmarks are empty. Otherwise they are the row's lists, a null list reading as empty. |
| `HomePage.FeedsDrawFromItems` | app/page.tsx:28-29 | The new and trending feeds take their items from the fetched list. |
| `HomePage.BrowseSections` | app/page.tsx:86-122 | Without a query the page shows the new and trending grids exactly when they are non-empty, new before trending, and nothing else before the all-items grid, which always comes last. |
| `HomePage.Home` | app/page.tsx:16-52 | The view's query is the normalized `q`, its selection is the `item` parameter, and its preferences are those `HomePreferences` gives for the read. A non-empty query shows one grid of search results; otherwise the browsing grids. Every grid's items come from the fetched list. |
| `GridView.FindById` | components/grid-view.tsx:55 | The result is the first item with the id, or nothing when no item has it. |
| `GridView.Init` | components/grid-view.tsx:26-31 | Initially the first min(12, \|items\|) items are visible. The modal flag is set whenever an id was given. The selection is the first item with that id, if any. |
| `GridView.LoadMore` | components/grid-view.tsx:40-45 | While cards remain hidden, the next eight are appended. Once all are shown nothing changes, and the selection is never touched. |
| `GridView.OpenDetails` | components/grid-view.tsx:54-62 | Opening an unknown id changes nothing. Opening a known id selects the first item with that id and shows the modal. |
| `GridView.CloseDetails` | components/grid-view.tsx:64-69 | Closing clears the selection and hides the modal. |
| `GridView.TransitionsKeepValid` | components/grid-view.tsx:26-69 | Every transition keeps the visible list a prefix of the items of length at least min(12, \|items\|), and keeps the selection among the items. |
| `GridView.RevealedAfter` | components/grid-view.tsx:31-45 | After n load-more events exactly the first min(\|items\|, 12 + 8n) items are visible. |
| `GridView.UnknownInitialId` | components/grid-view.tsx:26-29 | An initial id naming no item raises the modal flag but selects nothing, so no modal is shown. |
| `GridView.Cards` | components/grid-view.tsx:76-89 | There is one card per visible item. It is liked iff its id is in the likes, and bookmarked iff its id is in the bookmarks. |
| `LocalToggle.InitialState` | components/ui/card-item.tsx:31-33 | The local flags start from the props, which default to false, and nothing is loading. |
| `LocalToggle.Begin` | components/ui/card-item.tsx:47 | Loading is on while the toggle runs, and the flags are untouched. |
| `LocalToggle.Settle` | components/ui/card-item.tsx:48-64 | Afterwards loading is off on every path. A returned value becomes the flag, a thrown error keeps it, and the other flag is untouched. |
| `LocalToggle.Handle` | components/ui/card-item.tsx:35-65 | Without a user the state is unchanged. With one, the flag becomes the returned value, or stays on an error, and loading ends off. |
| `LocalToggle.FeedbackOf` | components/ui/card-item.tsx:38-64 | Without a user the click shows a destructive sign-in toast and does not refresh. With one, the page refreshes on every path. A returned flag shows "added to" iff it is set, otherwise "removed from". A thrown error shows a destructive error toast. |
| `LocalToggle.ToastMatchesButton` | components/ui/card-item.tsx:49-54 | After a click that returned, the toast says "added to" exactly when the button ends up set, and "removed from" exactly when it ends up clear. |
| `LocalToggle.FailureIsReported` | components/ui/card-item.tsx:56-61 | A click that throws leaves the button unchanged and shows a destructive error toast. |
| `LocalToggle.ReconcilesWithStore` | components/ui/card-item.tsx:49-50 | After a successful toggle the button's flag equals the membership the store now holds, whatever the flag was before. |
| `CardItem.SummarizeTags` | components/ui/card-item.tsx:106-107 | The card shows the first min(3, n) tags. The overflow badge appears iff n > 3 and carries n - 3, so shown plus overflow equals n. |
| `CardItem.ImageSource` | components/ui/card-item.tsx:117-118 | A missing image URL is replaced by the fixed placeholder; a present one is kept. |
| `CardItem.HandleLike` | components/ui/card-item.tsx:35-65 | With no user nothing changes. Otherwise the liked flag becomes the returned value, or is kept when the call throws. Loading ends off and the bookmark flag is untouched. |
| `CardItem.HandleBookmark` | components/ui/card-item.tsx:67-99 | The same rules for the bookmarked flag, leaving the liked flag untouched. |
| `CardItem.StaleFlagIsNotInverted` | components/ui/card-item.tsx:49-50 | The flag is taken from the store's answer, not the negated local value. A stale flag therefore survives a successful click unchanged. |
| `ItemModal.Open` | components/item-modal.tsx:34-36 | The modal's flags start from the props, and nothing is loading. |
| `ItemModal.FormattedDate` | components/item-modal.tsx:38-41 | An unparseable date shows as "Unknown date". A parseable one is formatted. |
| `ItemModal.ImageSource` | components/item-modal.tsx:133-134 | A missing image URL falls back to the same placeholder as the card. |
| `Dashboard.PersonalItems` | app/dashboard/page.tsx:29-30 | The kept items are, in item order, every occurrence of an item whose id is in the list, and nothing else. |
| `Dashboard.DanglingIdIgnored` | app/dashboard/page.tsx:29 | An id that names no item adds nothing to the list. |
| `Dashboard.OnlyIdSetMatters` | app/dashboard/page.tsx:29-30 | Only which ids occur matters; their order and repetition do not. |
| `Dashboard.TabFor` | app/dashboard/page.tsx:46-86 | A tab's count is the length of its list. The empty-state message is shown iff the list is empty; otherwise the grid shows the list. |
| `Dashboard.DashboardPage` | app/dashboard/page.tsx:11-31 | Given how the preference read ended: with no user the page redirects. Otherwise a missing row, a failed read or a null list reads as empty, and the tabs hold the liked and bookmarked items. |
| `Dashboard.NoRowNoItems` | app/dashboard/page.tsx:21-23 | When the read returns no row, because none is stored or because the read failed and its error is ignored, both tabs are empty, whatever the items. |
| `Dashboard.ListPage` | app/dashboard/likes/page.tsx:13-71 | Given how the preference read ended: with no user the page redirects. Otherwise the grid is shown iff the filtered list is non-empty, and it shows that list; a missing row or failed read gives the empty list. |
| `Dashboard.LikesPage` | app/dashboard/likes/page.tsx:13-71 | With no user the page redirects. The liked grid is shown iff some item's id is liked, and it shows the liked items in item order. |
| `Dashboard.BookmarksPage` | app/dashboard/bookmarks/page.tsx:13-71 | With no user the page redirects. The bookmarked grid is shown iff some item's id is bookmarked, and it shows those items in item order. |
| `Dashboard.ListPagesAgreeWithDashboard` | app/dashboard/likes/page.tsx:31 | The likes and bookmarks pages show what the dashboard's matching tabs show. |
| `RefreshRoute.EffectiveKey` | app/api/refresh/route.ts:6 | A set, non-empty environment key is used as is. An unset or empty one falls back to the default key. |
| `RefreshRoute.AuthorizedIff` | app/api/refresh/route.ts:12 | For a key without spaces, access is granted iff the header is `Bearer <key>`, possibly followed by a space and anything else. Extra fields after the key are ignored. |
| `RefreshRoute.SpacedKeyNeverMatches` | app/api/refresh/route.ts:12 | A key containing a space can never match. |
| `RefreshRoute.LowercaseSchemeRejected` | app/api/refresh/route.ts:12 | `bearer <key>` is refused, because the prefix match is case-sensitive. |
| `RefreshRoute.DoubleSpaceRejected` | app/api/refresh/route.ts:12 | Two spaces after `Bearer` are refused, because the second field is then empty. |
| `RefreshRoute.Post` | app/api/refresh/route.ts:8-32 | An unauthorized request gets 401 with no fetch and no revalidation. An authorized one gets 200 with a success body iff the refresh completes, and 500 if it throws. |
| `RefreshRoute.MissingHeaderRefused` | app/api/refresh/route.ts:10-14 | A request without an `Authorization` header gets 401 and triggers nothing. |

## Left out

- Network clients are left out: the Google Sheets call, Supabase auth, and the
  transport of `getUserPreferences` and `upsert`. Their results are inputs: a
  `SheetResponse`, a `Store` map, a `ReadResult` for the preference read (taken by the
  toggle, the landing page and the dashboard pages alike), an upsert success flag, and an
  `Outcome` for a toggle that returns or throws.
- Framework caching is left out. This covers `unstable_cache` with its one-hour lifetime,
  `revalidatePath` (modelled only as a flag in `Effects`), `export const revalidate`,
  and the `lastUpdated` timestamps, which come from the clock.
- The read-modify-write race between concurrent toggles is left out. The model is one
  sequential toggle.
- JavaScript date handling is a parameter or is left out. Date parsing is the `parseDate`
  parameter, and the current time is the `now` parameter. `IsNewItem` subtracts exactly
  seven days of milliseconds, while the source's `setDate` on the local calendar can
  differ by an hour across a daylight-saving change. The `MMMM d, yyyy` formatting is not
  modelled.
- `Text.ParseCount` models `parseInt` only for text that begins with decimal digits after
  white space. Text with no leading digit, which JavaScript reads as `NaN`, reads as 0.
  Signs are not handled.
- `Text.Lower` folds ASCII letters only. It stands in for Unicode `toLowerCase`.
- `GoogleSheets.RowToItem` reads a missing text cell (id, title, description, image,
  URL) as the empty string. In the source such a field stays `undefined`. The image
  fallback treats `undefined` and the empty string alike. The search filter would
  instead throw on a missing title or description.
- `GoogleSheets.RowToContent` reads a missing cell as the empty string. In the source
  the field stays `undefined`. A content row with no key then lands under the key
  `"undefined"` in the language map, while the model files it under `""`.
- `Contents.ContentsForLanguage` models the accumulator object as a map. For the key
  `__proto__`, the JavaScript assignment goes to the prototype setter and stores
  nothing. For that one key, "a key is in the map iff some entry has it" does not hold
  in the source.
- The `console.error` diagnostics on the failure paths of `fetchContents`,
  `_fetchItems` and the refresh endpoint are left out. They only write to the server log.
- `Supabase.Upsert` models a new row's other column as null. The table's column default is
  not part of this model, and the pages read null and an empty array alike.
- `Supabase.ToggleThenUpsert`, `Supabase.ToggleTwiceThroughStore` and
  `LocalToggle.ReconcilesWithStore` are about toggles whose read reaches the table
  (`Supabase.Select`). The failed-read path is stated separately by
  `Supabase.FailedReadOverwrites`.
- `GridView` does not model a change of the `items` prop after mounting. Such a change
  does not reset the visible cards or the selection.
- Router navigation (`router.push`) and the IntersectionObserver wiring are left out, and
  so is all JSX markup. `router.refresh` and the toasts are modelled only as the
  `Feedback` record, without their text. The card's `stopPropagation`, which keeps a
  button click from opening the detail view, is left out.
- `LocalToggle.Handle` does not model the disabled-while-loading guard. Both the card
  and the detail view disable their like and bookmark buttons while a toggle is in
  flight, so a click during a toggle is dropped. That guard lives in the markup, and the
  model handles every click it is given.
- The authentication form, site header, user menu and search bar are left out. They are
  form and menu UI over Supabase auth, theme toggling and URL building.
