/**
 * The preference store adapter: each user has a `user_preferences` row holding the ids
 * they liked and bookmarked. A toggle reads the current list, flips one id's membership,
 * and upserts the whole list back.
 */
module Supabase {
  import opened Wrappers
  import opened Seqs
  import opened Types

  /** A stored row; either array column may be null. */
  datatype PrefsRow = PrefsRow(likes: Option<seq<Id>>, bookmarks: Option<seq<Id>>)

  /** The `user_preferences` table, keyed by user id. */
  type Store = map<string, PrefsRow>

  /** Preferences as the pages use them, with null and missing read as empty. */
  datatype Preferences = Preferences(likes: seq<Id>, bookmarks: seq<Id>)

  /** The two preference lists; a toggle writes exactly one of them. */
  datatype Column = Likes | Bookmarks

  /**
   * How the single-row select of a user's preferences ended: the row, no row, or a
   * failure of the request itself (network, permission).
   */
  datatype ReadResult = Row(row: PrefsRow) | NoRow | ReadFailed

  /** A select against `store` that reaches the table. */
  function Select(store: Store, userId: string): (r: ReadResult)
    ensures r != ReadFailed
    ensures r.Row? <==> userId in store
    ensures r.Row? ==> r.row == store[userId]
  {
    if userId in store then Row(store[userId]) else NoRow
  }

  /**
   * The `data` a caller of `getUserPreferences` sees. Every caller ignores the `error`,
   * so a missing row and a failed request both look like null.
   */
  function DataOf(read: ReadResult): (data: Option<PrefsRow>)
    ensures data.Some? <==> read.Row?
    ensures read.Row? ==> data.value == read.row
  {
    match read
    case Row(row) => Some(row)
    case NoRow => None
    case ReadFailed => None
  }

  /** The user's row as a successful read returns it, or none. */
  function GetUserPreferences(store: Store, userId: string): (data: Option<PrefsRow>)
    ensures data.Some? <==> userId in store
    ensures data.Some? ==> data.value == store[userId]
  {
    DataOf(Select(store, userId))
  }

  /** The lists a page or toggle works with: a missing row and a null column both read as empty. */
  function ReadPreferences(row: Option<PrefsRow>): (p: Preferences)
    ensures row.None? ==> p == Preferences([], [])
    ensures row.Some? ==> p.likes == row.value.likes.GetOr([]) && p.bookmarks == row.value.bookmarks.GetOr([])
  {
    match row
    case None => Preferences([], [])
    case Some(r) => Preferences(r.likes.GetOr([]), r.bookmarks.GetOr([]))
  }

  function ListOf(p: Preferences, column: Column): seq<Id> {
    match column
    case Likes => p.likes
    case Bookmarks => p.bookmarks
  }

  /** Every occurrence of `id` removed, the rest kept in order. */
  function RemoveAll(list: seq<Id>, id: Id): (r: seq<Id>)
    ensures multiset(r)[id] == 0
    ensures forall x :: x != id ==> multiset(r)[x] == multiset(list)[x]
    ensures IsSubsequence(r, list)
    decreases |list|
  {
    if |list| == 0 then []
    else
      var rest := RemoveAll(list[1..], id);
      assert list == [list[0]] + list[1..];
      if list[0] == id then rest else [list[0]] + rest
  }

  lemma {:induction false} RemoveAllAbsent(list: seq<Id>, id: Id)
    requires id !in list
    ensures RemoveAll(list, id) == list
    decreases |list|
  {
    if |list| > 0 {
      RemoveAllAbsent(list[1..], id);
      assert list == [list[0]] + list[1..];
    }
  }

  /** The new list and the new membership flag a toggle produces. */
  datatype Toggled = Toggled(list: seq<Id>, member: bool)

  /**
   * The list logic of `toggleLike` / `toggleBookmark`: a present id is removed everywhere,
   * an absent one is appended; the flag is the new membership.
   */
  function ToggleMembership(list: seq<Id>, id: Id): (t: Toggled)
    ensures t.member == (id in t.list) == (id !in list)
    ensures multiset(t.list)[id] <= 1
    ensures forall x :: x != id ==> multiset(t.list)[x] == multiset(list)[x]
    ensures id in list ==> IsSubsequence(t.list, list)
    ensures id !in list ==> t.list == list + [id]
  {
    var present := id in list;
    var updated := if present then RemoveAll(list, id) else list + [id];
    assert id !in list ==> multiset(updated) == multiset(list) + multiset{id};
    Toggled(updated, !present)
  }

  /**
   * Toggling twice restores membership. It restores the exact list iff the id was absent,
   * or occurred exactly once and last; otherwise the id moves to the end and duplicates collapse.
   */
  lemma ToggleTwice(list: seq<Id>, id: Id)
    ensures var twice := ToggleMembership(ToggleMembership(list, id).list, id);
      && (id in twice.list <==> id in list)
      && (twice.list == list <==> id !in list || (multiset(list)[id] == 1 && list[|list| - 1] == id))
  {
    var once := ToggleMembership(list, id).list;
    var twice := ToggleMembership(once, id).list;
    if id !in list {
      assert once == list + [id];
      RemoveAllAbsent(list, id);
      assert RemoveAll(list + [id], id) == list by {
        RemoveAllAppend(list, id);
      }
    } else {
      assert id !in once;
      assert twice == once + [id];
      if multiset(list)[id] == 1 && list[|list| - 1] == id {
        var front := list[..|list| - 1];
        assert list == front + [id];
        assert multiset(list) == multiset(front) + multiset{id};
        assert id !in front;
        RemoveAllAbsent(front, id);
        RemoveAllAppendPresent(front, id);
      }
      if twice == list {
        assert list[|list| - 1] == id;
        assert multiset(list) == multiset(once) + multiset{id};
      }
    }
  }

  /** Removing an absent id from `list + [id]` gives back `list`. */
  lemma RemoveAllAppend(list: seq<Id>, id: Id)
    requires id !in list
    ensures RemoveAll(list + [id], id) == list
  {
    RemoveAllAppendPresent(list, id);
    RemoveAllAbsent(list, id);
  }

  lemma {:induction false} RemoveAllAppendPresent(list: seq<Id>, id: Id)
    ensures RemoveAll(list + [id], id) == RemoveAll(list, id)
    decreases |list|
  {
    if |list| == 0 {
      assert list + [id] == [id];
      assert [id][1..] == [];
    } else {
      assert (list + [id])[1..] == list[1..] + [id];
      RemoveAllAppendPresent(list[1..], id);
    }
  }

  /** What a toggle sends to `upsert`: the user and one column with its full new value. */
  datatype Payload = Payload(userId: string, column: Column, list: seq<Id>)

  /** What a toggle returns: the payload it wrote and the `isLiked` / `isBookmarked` flag. */
  datatype ToggleResult = ToggleResult(payload: Payload, flag: bool)

  /**
   * `toggleLike` (column `Likes`) or `toggleBookmark` (column `Bookmarks`), given how its
   * read of the user's row ended. A failed read is taken for an empty list.
   */
  function Toggle(read: ReadResult, userId: string, itemId: Id, column: Column): (r: ToggleResult)
    ensures var current := ListOf(ReadPreferences(DataOf(read)), column);
      && r.payload.userId == userId
      && r.payload.column == column
      && r.flag == (itemId !in current)
      && r.payload.list == ToggleMembership(current, itemId).list
    ensures !read.Row? ==> r.flag && r.payload.list == [itemId]
  {
    var current := ListOf(ReadPreferences(DataOf(read)), column);
    var t := ToggleMembership(current, itemId);
    ToggleResult(Payload(userId, column, t.list), t.member)
  }

  function ToggleLike(read: ReadResult, userId: string, itemId: Id): ToggleResult {
    Toggle(read, userId, itemId, Likes)
  }

  function ToggleBookmark(read: ReadResult, userId: string, itemId: Id): ToggleResult {
    Toggle(read, userId, itemId, Bookmarks)
  }

  /** One column of a stored row. */
  function ColumnOf(row: PrefsRow, column: Column): Option<seq<Id>> {
    match column
    case Likes => row.likes
    case Bookmarks => row.bookmarks
  }

  /**
   * The upsert: when it succeeds the user's row gets the payload's column and keeps the
   * other one (a new row leaves it null); when it fails nothing changes.
   */
  function Upsert(store: Store, payload: Payload, succeeded: bool): (s: Store)
    ensures !succeeded ==> s == store
    ensures s.Keys == if succeeded then store.Keys + {payload.userId} else store.Keys
    ensures forall u :: u in store && u != payload.userId ==> s[u] == store[u]
    ensures succeeded ==> ColumnOf(s[payload.userId], payload.column) == Some(payload.list)
    ensures succeeded && payload.userId in store ==>
      ColumnOf(s[payload.userId], Other(payload.column)) == ColumnOf(store[payload.userId], Other(payload.column))
    ensures succeeded && payload.userId !in store ==> ColumnOf(s[payload.userId], Other(payload.column)).None?
  {
    if !succeeded then store
    else
      var row := GetUserPreferences(store, payload.userId).GetOr(PrefsRow(None, None));
      var updated := match payload.column
        case Likes => row.(likes := Some(payload.list))
        case Bookmarks => row.(bookmarks := Some(payload.list));
      store[payload.userId := updated]
  }

  function Other(column: Column): Column {
    match column
    case Likes => Bookmarks
    case Bookmarks => Likes
  }

  /**
   * A toggle whose read and upsert both succeed leaves the toggled list in the store, reports the
   * membership it stored, and leaves the other column and every other user untouched.
   */
  lemma ToggleThenUpsert(store: Store, userId: string, itemId: Id, column: Column)
    ensures var before := ReadPreferences(GetUserPreferences(store, userId));
      var r := Toggle(Select(store, userId), userId, itemId, column);
      var after := Upsert(store, r.payload, true);
      var stored := ReadPreferences(GetUserPreferences(after, userId));
      && ListOf(stored, column) == ToggleMembership(ListOf(before, column), itemId).list
      && r.flag == (itemId in ListOf(stored, column))
      && ListOf(stored, Other(column)) == ListOf(before, Other(column))
      && (forall u :: u in store && u != userId ==> after[u] == store[u])
  {
  }

  /**
   * The returned flag does not look at the upsert: when the write fails the store is
   * unchanged and the flag contradicts the stored membership.
   */
  lemma FlagIgnoresUpsertFailure(store: Store, userId: string, itemId: Id, column: Column)
    ensures var r := Toggle(Select(store, userId), userId, itemId, column);
      var after := Upsert(store, r.payload, false);
      && after == store
      && r.flag == (itemId !in ListOf(ReadPreferences(GetUserPreferences(after, userId)), column))
  {
  }

  /** Two toggles of the same id whose reads and writes succeed restore its stored membership. */
  lemma ToggleTwiceThroughStore(store: Store, userId: string, itemId: Id, column: Column)
    ensures var r1 := Toggle(Select(store, userId), userId, itemId, column);
      var s1 := Upsert(store, r1.payload, true);
      var r2 := Toggle(Select(s1, userId), userId, itemId, column);
      var s2 := Upsert(s1, r2.payload, true);
      && !r2.flag == r1.flag
      && (itemId in ListOf(ReadPreferences(GetUserPreferences(s2, userId)), column)
          <==> itemId in ListOf(ReadPreferences(GetUserPreferences(store, userId)), column))
  {
    var before := ListOf(ReadPreferences(GetUserPreferences(store, userId)), column);
    ToggleThenUpsert(store, userId, itemId, column);
    var s1 := Upsert(store, Toggle(Select(store, userId), userId, itemId, column).payload, true);
    ToggleThenUpsert(s1, userId, itemId, column);
    ToggleTwice(before, itemId);
  }

  /**
   * A failed read is taken for an empty list: the toggle reports the item as now
   * liked (or bookmarked), and a successful upsert replaces the whole stored column
   * with just that item, dropping every other id it held.
   */
  lemma FailedReadOverwrites(store: Store, userId: string, itemId: Id, column: Column)
    ensures var r := Toggle(ReadFailed, userId, itemId, column);
      var after := Upsert(store, r.payload, true);
      var stored := ReadPreferences(GetUserPreferences(after, userId));
      && r.flag
      && ListOf(stored, column) == [itemId]
      && (forall x :: x in ListOf(ReadPreferences(GetUserPreferences(store, userId)), column) && x != itemId ==>
            x !in ListOf(stored, column))
  {
  }
}
