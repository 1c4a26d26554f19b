/**
 * The newsletter shape the renderer, the local store and the routes read:
 * a title, a subject line and an ordered list of articles.
 */
module Newsletter {
  import opened Wrappers

  /** One article; every field may be absent. `summary` is carried but never rendered. */
  datatype Article = Article(
    url: Option<string>,
    title: Option<string>,
    content: Option<string>,
    contentType: Option<string>,
    imageUrl: Option<string>,
    summary: Option<string>)

  datatype NewsletterData = NewsletterData(
    newsletterTitle: string,
    newsletterSubject: string,
    articles: seq<Article>)
}
