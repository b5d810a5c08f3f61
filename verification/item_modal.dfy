/** `ItemModal`: the detail view of one item, with its date, image and buttons. */
module ItemModal {
  import opened Wrappers
  import opened Types
  import opened LocalToggle
  import CardItem

  /** The date line: the formatted creation date, or "Unknown date" when it does not parse. */
  datatype DateLabel = UnknownDate | Formatted(at: int)

  /** `formattedDate`; the `MMMM d, yyyy` formatting itself is not modelled. */
  function FormattedDate(item: Item): (date: DateLabel)
    ensures date.UnknownDate? <==> item.createdAt.None?
    ensures date.Formatted? ==> date.at == item.createdAt.value
  {
    match item.createdAt
    case None => UnknownDate
    case Some(t) => Formatted(t)
  }

  /** The modal's image, with the same placeholder as the card. */
  function ImageSource(item: Item): (src: string)
    ensures src != ""
    ensures item.imageUrl != "" ==> src == item.imageUrl
    ensures item.imageUrl == "" ==> src == CardItem.PlaceholderImage
  {
    CardItem.ImageSource(item)
  }

  /** The modal's local flags start from the `isLiked` / `isBookmarked` props. */
  function Open(isLiked: Option<bool>, isBookmarked: Option<bool>): (st: ControlState)
    ensures st.liked <==> isLiked == Some(true)
    ensures st.bookmarked <==> isBookmarked == Some(true)
    ensures !st.loading
  {
    InitialState(isLiked, isBookmarked)
  }
}
