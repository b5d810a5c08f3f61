/** The records the application passes around: directory entries and localized copy. */
module Types {
  import opened Wrappers

  type Id = string

  /**
   * One directory entry. `createdAt` is the creation time in milliseconds since the
   * epoch, or `None` when the sheet's text does not parse as a date.
   */
  datatype Item = Item(
    id: Id,
    title: string,
    description: string,
    imageUrl: string,
    tags: seq<string>,
    url: string,
    createdAt: Option<int>,
    likeCount: nat,
    bookmarkCount: nat)

  /** One localized string: the text of `key` in `language`. */
  datatype Content = Content(id: string, key: string, language: string, text: string)

  /** JavaScript truthiness of an optional string: absent and empty are both false. */
  predicate Truthy(s: Option<string>) {
    s.Some? && s.value != ""
  }
}
