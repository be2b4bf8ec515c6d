/** The stored feed item. */
module Items {
  import opened Text

  datatype Item = Item(
    id: int,
    sourceId: int,
    canonicalUrl: string,
    title: string,
    summary: Option<string>,
    publishedAt: int,            // microseconds since the epoch, UTC
    language: Option<string>)
}
