/** `CardItem`: one card of the grid with its tag summary, image, and like and bookmark buttons. */
module CardItem {
  import opened Wrappers
  import opened Seqs
  import opened Types
  import opened Supabase
  import opened LocalToggle

  /** The image shown for an item without one. */
  const PlaceholderImage: string := "https://images.pexels.com/photos/4386429/pexels-photo-4386429.jpeg"

  /** The number of tags a card shows. */
  const ShownTags: nat := 3

  /** The card's image: the item's own, or the placeholder when it has none. */
  function ImageSource(item: Item): (src: string)
    ensures src != ""
    ensures item.imageUrl != "" ==> src == item.imageUrl
    ensures item.imageUrl == "" ==> src == PlaceholderImage
  {
    if item.imageUrl != "" then item.imageUrl else PlaceholderImage
  }

  /** The tags shown as badges, and the count on the overflow badge when there is one. */
  datatype TagSummary = TagSummary(shown: seq<string>, overflow: Option<nat>)

  /** The first three tags as badges, and an overflow badge counting the rest when there are more. */
  function SummarizeTags(tags: seq<string>): (t: TagSummary)
    ensures t.shown <= tags && |t.shown| == Min(ShownTags, |tags|)
    ensures t.overflow.Some? <==> |tags| > ShownTags
    ensures |t.shown| + t.overflow.GetOr(0) == |tags|
    ensures t.overflow.Some? ==> t.overflow.value > 0
  {
    var overflow := if |tags| > ShownTags then Some(|tags| - ShownTags) else None;
    TagSummary(Take(tags, ShownTags), overflow)
  }

  /** The card's `handleLike`. */
  function HandleLike(st: ControlState, userId: Option<string>, outcome: Outcome): (st': ControlState)
    ensures !Truthy(userId) ==> st' == st
    ensures Truthy(userId) ==> !st'.loading && st'.bookmarked == st.bookmarked
    ensures Truthy(userId) && outcome.Returned? ==> st'.liked == outcome.flag
    ensures Truthy(userId) && outcome.Threw? ==> st'.liked == st.liked
  {
    Handle(st, userId, Likes, outcome)
  }

  /** The card's `handleBookmark`. */
  function HandleBookmark(st: ControlState, userId: Option<string>, outcome: Outcome): (st': ControlState)
    ensures !Truthy(userId) ==> st' == st
    ensures Truthy(userId) ==> !st'.loading && st'.liked == st.liked
    ensures Truthy(userId) && outcome.Returned? ==> st'.bookmarked == outcome.flag
    ensures Truthy(userId) && outcome.Threw? ==> st'.bookmarked == st.bookmarked
  {
    Handle(st, userId, Bookmarks, outcome)
  }

  /**
   * The flag is taken from the store, not flipped locally: when the card's flag was
   * stale, a successful click leaves it unchanged rather than inverting it.
   */
  lemma StaleFlagIsNotInverted(st: ControlState, store: Store, userId: string, itemId: string)
    requires userId != ""
    requires st.liked != (itemId in ReadPreferences(GetUserPreferences(store, userId)).likes)
    ensures HandleLike(st, Some(userId), Returned(ToggleLike(Select(store, userId), userId, itemId).flag)).liked == st.liked
  {
  }
}
