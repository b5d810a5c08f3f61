/**
 * The like and bookmark buttons of a card or of the detail view: local flags that are
 * overwritten by what the store's toggle returns, and a loading flag while it runs.
 */
module LocalToggle {
  import opened Wrappers
  import opened Supabase
  import opened Types

  /** How the awaited `toggleLike` / `toggleBookmark` call ended. */
  datatype Outcome = Returned(flag: bool) | Threw

  datatype ControlState = ControlState(liked: bool, bookmarked: bool, loading: bool)

  /** The flags on mount come from the props, which default to false; nothing is loading. */
  function InitialState(isLiked: Option<bool>, isBookmarked: Option<bool>): (st: ControlState)
    ensures st.liked == (isLiked == Some(true)) && st.bookmarked == (isBookmarked == Some(true))
    ensures !st.loading
  {
    ControlState(isLiked.GetOr(false), isBookmarked.GetOr(false), false)
  }

  function Flag(st: ControlState, column: Column): bool {
    match column
    case Likes => st.liked
    case Bookmarks => st.bookmarked
  }

  /** The button turns to loading before the call, with the flags untouched. */
  function Begin(st: ControlState): (st': ControlState)
    ensures st'.loading && st'.liked == st.liked && st'.bookmarked == st.bookmarked
  {
    st.(loading := true)
  }

  /** The `try` / `catch` / `finally` after the call: the returned flag is stored, an exception keeps the old one. */
  function Settle(st: ControlState, column: Column, outcome: Outcome): (st': ControlState)
    ensures !st'.loading
    ensures outcome.Returned? ==> Flag(st', column) == outcome.flag
    ensures outcome.Threw? ==> Flag(st', column) == Flag(st, column)
    ensures Flag(st', Other(column)) == Flag(st, Other(column))
  {
    var settled := match outcome
      case Threw => st
      case Returned(flag) =>
        match column
        case Likes => st.(liked := flag)
        case Bookmarks => st.(bookmarked := flag);
    settled.(loading := false)
  }

  /** `handleLike` / `handleBookmark`: without a user nothing changes; otherwise begin, then settle. */
  function Handle(st: ControlState, userId: Option<string>, column: Column, outcome: Outcome): (st': ControlState)
    ensures !Truthy(userId) ==> st' == st
    ensures Truthy(userId) ==> !st'.loading && Flag(st', Other(column)) == Flag(st, Other(column))
    ensures Truthy(userId) && outcome.Returned? ==> Flag(st', column) == outcome.flag
    ensures Truthy(userId) && outcome.Threw? ==> st' == st.(loading := false)
  {
    if !Truthy(userId) then st else Settle(Begin(st), column, outcome)
  }

  /** The toast a click raises. */
  datatype Toast = SignInRequired | AddedTo | RemovedFrom | CouldNotUpdate

  /** What a click shows besides the flags: its toast, whether that toast is destructive, and whether the page is refreshed. */
  datatype Feedback = Feedback(toast: Toast, destructive: bool, refreshed: bool)

  /**
   * The toasts and the page refresh a click triggers: without a user a
   * destructive sign-in toast and no refresh; otherwise a refresh on every path,
   * with an added/removed toast named by the returned flag or a destructive error toast.
   */
  function FeedbackOf(userId: Option<string>, outcome: Outcome): (f: Feedback)
    ensures !Truthy(userId) ==> f.toast == SignInRequired && !f.refreshed
    ensures Truthy(userId) ==> f.refreshed
    ensures f.destructive <==> !Truthy(userId) || outcome.Threw?
    ensures Truthy(userId) && outcome.Threw? ==> f.toast == CouldNotUpdate
    ensures Truthy(userId) && outcome.Returned? ==> (f.toast == AddedTo <==> outcome.flag)
    ensures Truthy(userId) && outcome.Returned? ==> f.toast in {AddedTo, RemovedFrom}
  {
    if !Truthy(userId) then Feedback(SignInRequired, true, false)
    else match outcome
      case Threw => Feedback(CouldNotUpdate, true, true)
      case Returned(flag) => Feedback(if flag then AddedTo else RemovedFrom, false, true)
  }

  /**
   * The toast never contradicts the button: after a click that returned, "added to"
   * is shown exactly when the button ends up set, and "removed from" exactly when it
   * ends up clear.
   */
  lemma ToastMatchesButton(st: ControlState, userId: Option<string>, column: Column, outcome: Outcome)
    requires Truthy(userId) && outcome.Returned?
    ensures FeedbackOf(userId, outcome).toast == AddedTo <==> Flag(Handle(st, userId, column, outcome), column)
    ensures FeedbackOf(userId, outcome).toast == RemovedFrom <==> !Flag(Handle(st, userId, column, outcome), column)
  {
  }

  /** A click that threw leaves the button as it was and says so with a destructive toast. */
  lemma FailureIsReported(st: ControlState, userId: Option<string>, column: Column)
    requires Truthy(userId)
    ensures Flag(Handle(st, userId, column, Threw), column) == Flag(st, column)
    ensures FeedbackOf(userId, Threw).destructive && FeedbackOf(userId, Threw).toast == CouldNotUpdate
  {
  }

  /**
   * After a successful toggle the button shows what the store now holds, even when the
   * local flag was stale before the click.
   */
  lemma ReconcilesWithStore(st: ControlState, store: Store, userId: string, itemId: string, column: Column)
    requires userId != ""
    ensures var r := Toggle(Select(store, userId), userId, itemId, column);
      var after := Upsert(store, r.payload, true);
      var st' := Handle(st, Some(userId), column, Returned(r.flag));
      Flag(st', column) == (itemId in ListOf(ReadPreferences(GetUserPreferences(after, userId)), column))
  {
    ToggleThenUpsert(store, userId, itemId, column);
  }
}
