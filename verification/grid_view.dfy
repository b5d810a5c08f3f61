/**
 * `GridView`: the grid reveals a prefix of its items that grows as the user scrolls,
 * and keeps which item, if any, the detail view shows.
 */
module GridView {
  import opened Wrappers
  import opened Seqs
  import opened Types

  /** The number of cards shown before any scrolling. */
  const InitialCount: nat := 12

  /** The number of cards each load-more reveals. */
  const PageSize: nat := 8

  /** The component state: the revealed cards, the selected item, and the modal flag. */
  datatype GridState = GridState(visible: seq<Item>, selected: Option<Item>, showModal: bool)

  /** The first item with `id`, or none when no item has it. */
  function FindById(items: seq<Item>, id: Id): (r: Option<Item>)
    ensures r.Some? ==> exists i :: 0 <= i < |items| && items[i] == r.value && IsFirstWithId(items, id, i)
    ensures r.None? ==> forall i :: 0 <= i < |items| ==> items[i].id != id
    decreases |items|
  {
    if |items| == 0 then None
    else if items[0].id == id then
      assert IsFirstWithId(items, id, 0);
      Some(items[0])
    else
      var r := FindById(items[1..], id);
      if r.Some? then
        ghost var i :| 0 <= i < |items| - 1 && items[1..][i] == r.value && IsFirstWithId(items[1..], id, i);
        assert IsFirstWithId(items, id, i + 1);
        r
      else r
  }

  /** Item `i` has `id` and no earlier item does. */
  ghost predicate IsFirstWithId(items: seq<Item>, id: Id, i: int) {
    0 <= i < |items| && items[i].id == id && forall j :: 0 <= j < i ==> items[j].id != id
  }

  /** The state on mount: the first twelve items, and the item named by `initialSelectedId`. */
  function Init(items: seq<Item>, initialSelectedId: Option<string>): (st: GridState)
    ensures st.visible == Take(items, InitialCount)
    ensures st.showModal <==> Truthy(initialSelectedId)
    ensures !Truthy(initialSelectedId) ==> st.selected.None?
    ensures Truthy(initialSelectedId) ==> st.selected == FindById(items, initialSelectedId.value)
  {
    var selected := if Truthy(initialSelectedId) then FindById(items, initialSelectedId.value) else None;
    GridState(Take(items, InitialCount), selected, Truthy(initialSelectedId))
  }

  /** The observer callback: while cards remain hidden, the next eight are appended. */
  function LoadMore(items: seq<Item>, st: GridState): (st': GridState)
    ensures st'.selected == st.selected && st'.showModal == st.showModal
    ensures |st.visible| >= |items| ==> st' == st
    ensures |st.visible| < |items| ==>
      st'.visible == st.visible + items[|st.visible|..Min(|st.visible| + PageSize, |items|)]
  {
    if |st.visible| < |items| then
      var n := |st.visible|;
      st.(visible := st.visible + items[n..Min(n + PageSize, |items|)])
    else st
  }

  /** Opening the details of an id: an unknown id changes nothing; otherwise the first item with it is selected and shown. */
  function OpenDetails(items: seq<Item>, st: GridState, id: Id): (st': GridState)
    ensures st'.visible == st.visible
    ensures (forall i :: 0 <= i < |items| ==> items[i].id != id) ==> st' == st
    ensures (exists i :: 0 <= i < |items| && items[i].id == id) ==>
      st'.showModal && st'.selected.Some? && st'.selected.value.id == id && st'.selected.value in items
    ensures (exists i :: 0 <= i < |items| && items[i].id == id) ==>
      exists i :: IsFirstWithId(items, id, i) && st'.selected == Some(items[i])
  {
    match FindById(items, id)
    case None => st
    case Some(item) => st.(selected := Some(item), showModal := true)
  }

  /** Closing the details: nothing is selected and the modal is hidden. */
  function CloseDetails(st: GridState): (st': GridState)
    ensures st'.visible == st.visible && st'.selected.None? && !st'.showModal
  {
    st.(selected := None, showModal := false)
  }

  /** The detail view is on screen: an item is selected and the modal is open. */
  predicate ModalShown(st: GridState) {
    st.selected.Some? && st.showModal
  }

  /** What the grid keeps true: it shows a prefix of its items, at least the first twelve, and selects only its own items. */
  ghost predicate Valid(items: seq<Item>, st: GridState) {
    && st.visible <= items
    && |st.visible| >= Min(InitialCount, |items|)
    && (st.selected.Some? ==> st.selected.value in items)
  }

  /** Every transition keeps the grid valid. */
  lemma TransitionsKeepValid(items: seq<Item>, st: GridState, initialSelectedId: Option<string>, id: Id)
    ensures Valid(items, Init(items, initialSelectedId))
    ensures Valid(items, st) ==> Valid(items, LoadMore(items, st))
    ensures Valid(items, st) ==> Valid(items, OpenDetails(items, st, id))
    ensures Valid(items, st) ==> Valid(items, CloseDetails(st))
  {
    if Valid(items, st) && |st.visible| < |items| {
      var n := |st.visible|;
      assert items[..n] == st.visible;
      assert st.visible + items[n..Min(n + PageSize, |items|)] == items[..Min(n + PageSize, |items|)];
    }
    if Init(items, initialSelectedId).selected.Some? {
      var i :| 0 <= i < |items| && items[i] == Init(items, initialSelectedId).selected.value
             && IsFirstWithId(items, initialSelectedId.value, i);
    }
  }

  /** `n` consecutive load-more events. */
  function LoadMoreTimes(items: seq<Item>, st: GridState, n: nat): GridState
    decreases n
  {
    if n == 0 then st else LoadMoreTimes(items, LoadMore(items, st), n - 1)
  }

  /** After `n` load-more events the first min(|items|, 12 + 8n) items are shown. */
  lemma {:induction false} RevealedAfter(items: seq<Item>, initialSelectedId: Option<string>, n: nat)
    ensures LoadMoreTimes(items, Init(items, initialSelectedId), n).visible
      == items[..Min(|items|, InitialCount + PageSize * n)]
  {
    RevealedFrom(items, Init(items, initialSelectedId), n);
  }

  lemma {:induction false} RevealedFrom(items: seq<Item>, st: GridState, n: nat)
    requires st.visible == items[..Min(|items|, |st.visible|)]
    requires |st.visible| == Min(|items|, InitialCount) || |st.visible| >= InitialCount
    ensures LoadMoreTimes(items, st, n).visible == items[..Min(|items|, |st.visible| + PageSize * n)]
    decreases n
  {
    if n == 0 {
    } else {
      var st1 := LoadMore(items, st);
      var m := |st.visible|;
      if m < |items| {
        assert st.visible == items[..m];
        assert st1.visible == items[..Min(m + PageSize, |items|)];
        RevealedFrom(items, st1, n - 1);
        assert |st1.visible| + PageSize * (n - 1) >= m + PageSize * n || |st1.visible| == |items|;
      } else {
        assert st1 == st;
        assert st.visible == items;
        LoadMoreTimesIdle(items, st, n - 1);
      }
    }
  }

  /** Once everything is shown, further load-more events change nothing. */
  lemma {:induction false} LoadMoreTimesIdle(items: seq<Item>, st: GridState, n: nat)
    requires |st.visible| >= |items|
    ensures LoadMoreTimes(items, st, n) == st
    decreases n
  {
    if n > 0 {
      LoadMoreTimesIdle(items, st, n - 1);
    }
  }

  /** A requested item that is not in the list raises the modal flag, but no modal is shown. */
  lemma UnknownInitialId(items: seq<Item>, id: string)
    requires id != ""
    requires forall i :: 0 <= i < |items| ==> items[i].id != id
    ensures Init(items, Some(id)).showModal
    ensures Init(items, Some(id)).selected.None?
    ensures !ModalShown(Init(items, Some(id)))
  {
  }

  /** The flags a card is rendered with. */
  datatype CardProps = CardProps(item: Item, isLiked: bool, isBookmarked: bool)

  /** One card per visible item, liked iff its id is in `likes`, bookmarked iff in `bookmarks`. */
  function Cards(st: GridState, likes: seq<Id>, bookmarks: seq<Id>): (cards: seq<CardProps>)
    ensures |cards| == |st.visible|
    ensures forall i :: 0 <= i < |cards| ==>
      && cards[i].item == st.visible[i]
      && (cards[i].isLiked <==> st.visible[i].id in likes)
      && (cards[i].isBookmarked <==> st.visible[i].id in bookmarks)
  {
    seq(|st.visible|, i requires 0 <= i < |st.visible| =>
      CardProps(st.visible[i], st.visible[i].id in likes, st.visible[i].id in bookmarks))
  }
}
