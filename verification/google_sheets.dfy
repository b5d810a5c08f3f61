/**
 * The spreadsheet adapter: rows of the Items and Contents ranges become records, and
 * the "new" and "trending" feeds are derived from the item list.
 */
module GoogleSheets {
  import opened Wrappers
  import opened Seqs
  import opened Text
  import opened Types

  /** One spreadsheet row; trailing empty cells are absent. */
  type Row = seq<string>

  /** The outcome of reading a range: a transport failure, or a body whose `values` may be absent. */
  datatype SheetResponse = Failed | Fetched(values: Option<seq<Row>>)

  /** Both feeds are capped at this many items. */
  const FeedLength: nat := 8

  const DayMs: int := 24 * 60 * 60 * 1000

  /** An item is new when it was created at most this long ago. */
  const LookbackMs: int := 7 * DayMs

  function CellAt(row: Row, i: nat): Option<string> {
    if i < |row| then Some(row[i]) else None
  }

  /** A text cell; a missing cell reads as the empty string. */
  function TextCell(row: Row, i: nat): string {
    CellAt(row, i).GetOr("")
  }

  /** A string cell with a fallback: missing and empty cells are falsy in JavaScript, so both take the fallback. */
  function CellOr(row: Row, i: nat, fallback: string): (r: string)
    ensures r == fallback || (i < |row| && r == row[i] != "")
    ensures i < |row| && row[i] != "" ==> r == row[i]
  {
    if i < |row| && row[i] != "" then row[i] else fallback
  }

  /** `tag` is what is left of the comma-free field `field` once its edge white space is cut off. */
  ghost predicate IsTagOfField(tag: string, field: string) {
    ',' !in field && exists i, j :: IsTrimOf(tag, field, i, j)
  }

  /** The tags cell split on commas, each piece trimmed. */
  function ParseTags(cell: string): (tags: seq<string>)
    ensures |tags| == multiset(cell)[','] + 1
    ensures forall k :: 0 <= k < |tags| ==> ',' !in tags[k] && HasNoEdgeSpace(tags[k])
    ensures exists fields: seq<string> ::
      && |fields| == |tags|
      && Join(fields, ',') == cell
      && forall k :: 0 <= k < |tags| ==> IsTagOfField(tags[k], fields[k])
  {
    var pieces := Split(cell, ',');
    SplitCount(cell, ',');
    SplitPiecesHaveNoSeparator(cell, ',');
    JoinSplit(cell, ',');
    var tags := seq(|pieces|, k requires 0 <= k < |pieces| => Trim(pieces[k]));
    assert forall k :: 0 <= k < |tags| ==> IsTagOfField(tags[k], pieces[k]);
    tags
  }

  /** An empty or missing tags cell gives one empty tag, not an empty list. */
  lemma EmptyTagsCell()
    ensures ParseTags("") == [""]
  {
    assert Trim("") == "";
  }

  /** White space around the commas is cut off: `"ai , web"` gives the tags `ai` and `web`. */
  lemma TagsAroundCommasTrimmed()
    ensures ParseTags("ai , web") == ["ai", "web"]
  {
    SplitExample();
    TrimExamples();
  }

  lemma SplitExample()
    ensures Split("ai , web", ',') == ["ai ", " web"]
  {
    var parts := ["ai ", " web"];
    assert Join(parts[1..], ',') == " web";
    assert Join(parts, ',') == "ai , web";
    SplitJoin(parts, ',');
  }

  lemma TrimExamples()
    ensures Trim("ai ") == "ai" && Trim(" web") == "web"
  {
    assert !IsSpace('a') && !IsSpace('i') && !IsSpace('w') && !IsSpace('b') && IsSpace(' ');
    assert LeadingSpaces("ai ") == 0;
    assert "ai "[0..] == "ai ";
    assert TrailingSpacesStart("ai") == 2;
    assert "ai "[..2] == "ai";
    assert TrailingSpacesStart("ai ") == 2;
    assert LeadingSpaces("web") == 0;
    assert LeadingSpaces(" web") == 1;
    assert " web"[1..] == "web";
    assert TrailingSpacesStart("web") == 3;
    assert "web"[..3] == "web";
  }

  /** Tags that are comma-free and already trimmed survive being joined and parsed back. */
  lemma TagsRoundTrip(tags: seq<string>)
    requires |tags| >= 1
    requires forall k :: 0 <= k < |tags| ==> ',' !in tags[k] && HasNoEdgeSpace(tags[k])
    ensures ParseTags(Join(tags, ',')) == tags
  {
    SplitJoin(tags, ',');
    forall k | 0 <= k < |tags|
      ensures Trim(tags[k]) == tags[k]
    {
      TrimOfTrimmed(tags[k]);
    }
  }

  /**
   * A row of the Items range as an `Item`. Columns are positional; the creation date goes
   * through `parseDate`, which stands for JavaScript's date parsing.
   */
  function RowToItem(row: Row, parseDate: string -> Option<int>): (item: Item)
    ensures TextCell(row, 4) == "" ==> item.tags == [""]
    ensures |item.tags| >= 1
    ensures |row| <= 7 || row[7] == "" ==> item.likeCount == 0
    ensures |row| <= 8 || row[8] == "" ==> item.bookmarkCount == 0
    ensures |row| <= 6 ==> item.createdAt == None
    ensures 6 < |row| ==> item.createdAt == parseDate(row[6])
    ensures item.tags == ParseTags(TextCell(row, 4))
    ensures 7 < |row| && row[7] != "" ==> item.likeCount == ParseCount(row[7])
    ensures 8 < |row| && row[8] != "" ==> item.bookmarkCount == ParseCount(row[8])
    ensures item.id == TextCell(row, 0) && item.title == TextCell(row, 1)
    ensures item.description == TextCell(row, 2) && item.imageUrl == TextCell(row, 3)
    ensures item.url == TextCell(row, 5)
  {
    EmptyTagsCell();
    Item(
      id := TextCell(row, 0),
      title := TextCell(row, 1),
      description := TextCell(row, 2),
      imageUrl := TextCell(row, 3),
      tags := ParseTags(TextCell(row, 4)),
      url := TextCell(row, 5),
      createdAt := match CellAt(row, 6) case None => None case Some(t) => parseDate(t),
      likeCount := ParseCount(CellOr(row, 7, "0")),
      bookmarkCount := ParseCount(CellOr(row, 8, "0")))
  }

  /** The row a sheet editor would write for `item`, with `dateText` in the date column. */
  function ItemToRow(item: Item, dateText: string): Row
    requires |item.tags| >= 1
  {
    [item.id, item.title, item.description, item.imageUrl, Join(item.tags, ','), item.url,
     dateText, ShowNat(item.likeCount), ShowNat(item.bookmarkCount)]
  }

  /** Writing an item as a row and mapping the row back gives the item. */
  lemma RowRoundTrip(item: Item, dateText: string, parseDate: string -> Option<int>)
    requires |item.tags| >= 1
    requires forall k :: 0 <= k < |item.tags| ==> ',' !in item.tags[k] && HasNoEdgeSpace(item.tags[k])
    requires parseDate(dateText) == item.createdAt
    ensures RowToItem(ItemToRow(item, dateText), parseDate) == item
  {
    TagsRoundTrip(item.tags);
    ParseShowNat(item.likeCount);
    ParseShowNat(item.bookmarkCount);
  }

  /** `_fetchItems`: a failed read gives no items; absent `values` count as no rows. */
  function FetchItems(response: SheetResponse, parseDate: string -> Option<int>): (items: seq<Item>)
    ensures response.Failed? ==> items == []
    ensures response.Fetched? && response.values.None? ==> items == []
    ensures response.Fetched? && response.values.Some? ==>
      |items| == |response.values.value| &&
      forall i :: 0 <= i < |items| ==> items[i] == RowToItem(response.values.value[i], parseDate)
  {
    match response
    case Failed => []
    case Fetched(values) =>
      var rows := values.GetOr([]);
      seq(|rows|, i requires 0 <= i < |rows| => RowToItem(rows[i], parseDate))
  }

  /** A row of the Contents range as a `Content`. */
  function RowToContent(row: Row): Content {
    Content(TextCell(row, 0), TextCell(row, 1), TextCell(row, 2), TextCell(row, 3))
  }

  /** `fetchContents`: a failed read falls back to the bundled `defaults`. */
  function FetchContents(response: SheetResponse, defaults: seq<Content>): (contents: seq<Content>)
    ensures response.Failed? ==> contents == defaults
    ensures response.Fetched? && response.values.None? ==> contents == []
    ensures response.Fetched? && response.values.Some? ==>
      |contents| == |response.values.value| &&
      forall i :: 0 <= i < |contents| ==> contents[i] == RowToContent(response.values.value[i])
  {
    match response
    case Failed => defaults
    case Fetched(values) =>
      var rows := values.GetOr([]);
      seq(|rows|, i requires 0 <= i < |rows| => RowToContent(rows[i]))
  }

  /**
   * `isNewItem`: created no earlier than seven days before `now`. There is no upper
   * bound, and an unparseable date compares false.
   */
  predicate IsNewItem(item: Item, now: int) {
    match item.createdAt
    case None => false
    case Some(t) => t >= now - LookbackMs
  }

  /** An item dated at or after `now` is always new. */
  lemma FutureItemsAreNew(item: Item, now: int)
    requires item.createdAt.Some? && item.createdAt.value >= now
    ensures IsNewItem(item, now)
  {
  }

  /** An item with an unparseable date is never new. */
  lemma UndatedItemsAreNotNew(item: Item, now: int)
    requires item.createdAt.None?
    ensures !IsNewItem(item, now)
  {
  }

  /** Newness only gets lost as time moves on: new at `later` means new at any earlier time. */
  lemma NewnessFades(item: Item, earlier: int, later: int)
    requires earlier <= later
    requires IsNewItem(item, later)
    ensures IsNewItem(item, earlier)
  {
  }

  /** The new-items feed: the new items, in input order, cut to the first eight. */
  function NewItems(items: seq<Item>, now: int): seq<Item> {
    Take(Filter(items, x => IsNewItem(x, now)), FeedLength)
  }

  /**
   * The new-items feed is the first new items in input order, as many as there are new
   * items up to eight; when it is shorter than eight it holds every new item.
   */
  lemma NewItemsSpec(items: seq<Item>, now: int)
    ensures var r := NewItems(items, now);
      && |r| == Min(FeedLength, CountWhere(items, x => IsNewItem(x, now)))
      && (forall k :: 0 <= k < |r| ==> IsNewItem(r[k], now))
      && IsSubsequence(r, items)
      && r <= Filter(items, x => IsNewItem(x, now))
      && (|r| < FeedLength ==> forall k :: 0 <= k < |items| && IsNewItem(items[k], now) ==> items[k] in r)
  {
    var p := x => IsNewItem(x, now);
    var f := Filter(items, p);
    var r := NewItems(items, now);
    FilterLength(items, p);
    PrefixIsSubsequence(r, f);
    SubsequenceTransitive(r, f, items);
    SubsequenceMembership(r, f);
    forall k | 0 <= k < |r|
      ensures IsNewItem(r[k], now)
    {
      assert r[k] in f;
    }
  }

  /** The engagement score ranking is based on. */
  function Score(item: Item): nat {
    item.likeCount + item.bookmarkCount
  }

  ghost predicate SortedByScore(s: seq<Item>) {
    forall i, j :: 0 <= i < j < |s| ==> Score(s[i]) >= Score(s[j])
  }

  /** The items of `s` with score `k`, in their order in `s`. */
  function WithScore(s: seq<Item>, k: nat): seq<Item> {
    Filter(s, x => Score(x) == k)
  }

  /** Putting an item in front of a sorted list it does not rank below keeps it sorted. */
  lemma SortedCons(a: Item, s: seq<Item>)
    requires SortedByScore(s)
    requires forall i :: 0 <= i < |s| ==> Score(a) >= Score(s[i])
    ensures SortedByScore([a] + s)
  {
    forall i, j | 0 <= i < j < |[a] + s|
      ensures Score(([a] + s)[i]) >= Score(([a] + s)[j])
    {
      if i > 0 {
        assert ([a] + s)[i] == s[i - 1];
      }
      assert ([a] + s)[j] == s[j - 1];
    }
  }

  /** Places `x` before the first item it does not rank below, so it precedes its ties. */
  function InsertByScore(x: Item, s: seq<Item>): (r: seq<Item>)
    requires SortedByScore(s)
    ensures multiset(r) == multiset(s) + multiset{x}
    ensures forall i :: 0 <= i < |r| ==> r[i] == x || r[i] in s
    ensures SortedByScore(r)
    decreases |s|
  {
    if |s| == 0 || Score(x) >= Score(s[0]) then
      SortedCons(x, s);
      [x] + s
    else
      var rest := InsertByScore(x, s[1..]);
      assert s == [s[0]] + s[1..];
      assert forall i :: 0 <= i < |rest| ==> rest[i] == x || rest[i] in s[1..];
      assert forall i :: 0 <= i < |rest| ==> Score(s[0]) >= Score(rest[i]);
      SortedCons(s[0], rest);
      [s[0]] + rest
  }

  /** The stable sort by descending score that `getTrendingItems` performs on a copy. */
  function SortByScore(items: seq<Item>): (r: seq<Item>)
    ensures SortedByScore(r)
    ensures multiset(r) == multiset(items)
    decreases |items|
  {
    if |items| == 0 then []
    else
      assert items == [items[0]] + items[1..];
      InsertByScore(items[0], SortByScore(items[1..]))
  }

  /** Inserting `x` keeps every tie group in its order, with `x` ahead of its ties. */
  lemma {:induction false} InsertKeepsTies(x: Item, s: seq<Item>, k: nat)
    requires SortedByScore(s)
    ensures WithScore(InsertByScore(x, s), k) == WithScore([x] + s, k)
    decreases |s|
  {
    if |s| > 0 && Score(x) < Score(s[0]) {
      InsertKeepsTies(x, s[1..], k);
      var p := (y: Item) => Score(y) == k;
      FilterConcat([s[0]], InsertByScore(x, s[1..]), p);
      FilterConcat([x], s[1..], p);
      FilterConcat([s[0]], s[1..], p);
      FilterConcat([x], s, p);
      assert s == [s[0]] + s[1..];
    }
  }

  /** The sort is stable: the items of each score keep their input order. */
  lemma {:induction false} SortKeepsTies(items: seq<Item>, k: nat)
    ensures WithScore(SortByScore(items), k) == WithScore(items, k)
    decreases |items|
  {
    if |items| > 0 {
      SortKeepsTies(items[1..], k);
      InsertKeepsTies(items[0], SortByScore(items[1..]), k);
      var p := (y: Item) => Score(y) == k;
      FilterConcat([items[0]], SortByScore(items[1..]), p);
      FilterConcat([items[0]], items[1..], p);
      assert items == [items[0]] + items[1..];
    }
  }

  /** `getTrendingItems`: the first eight of the stably sorted copy. */
  function TrendingItems(items: seq<Item>): seq<Item> {
    Take(SortByScore(items), FeedLength)
  }

  /** The trending feed has min(8, |items|) items, all drawn from `items`, in non-increasing score. */
  lemma TrendingShape(items: seq<Item>)
    ensures |TrendingItems(items)| == Min(FeedLength, |items|)
    ensures SortedByScore(TrendingItems(items))
    ensures multiset(TrendingItems(items)) <= multiset(items)
  {
    var sorted := SortByScore(items);
    var r := TrendingItems(items);
    assert sorted == r + sorted[|r|..];
    assert multiset(sorted) == multiset(r) + multiset(sorted[|r|..]);
    assert forall i :: 0 <= i < |r| ==> r[i] == sorted[i];
  }

  /** Equal scores keep their input order: each tie group of the feed is a prefix of the input's. */
  lemma TrendingKeepsTies(items: seq<Item>, k: nat)
    ensures WithScore(TrendingItems(items), k) <= WithScore(items, k)
  {
    FilterOfPrefix(TrendingItems(items), SortByScore(items), y => Score(y) == k);
    SortKeepsTies(items, k);
  }

  /** Nothing left out of the trending feed outranks an item in it. */
  lemma TrendingIsTop(items: seq<Item>, x: Item, j: nat)
    requires j < |TrendingItems(items)|
    requires x in multiset(items) - multiset(TrendingItems(items))
    ensures Score(x) <= Score(TrendingItems(items)[j])
  {
    var sorted := SortByScore(items);
    var n := |TrendingItems(items)|;
    assert TrendingItems(items) == sorted[..n];
    var k := LeftOutLiesBeyond(sorted, n, x);
    assert sorted[j] == TrendingItems(items)[j];
  }
}
