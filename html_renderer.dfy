/**
 * `generateNewsletterHtml`: newsletter data and style tokens to a standalone
 * HTML document. The markdown converter (`marked.parse`), the class merger
 * (`cn`) and the copyright year are parameters.
 */
module HtmlRenderer {
  import opened Wrappers
  import opened Strings
  import opened Newsletter

  /** The style tokens; an absent token leaves the base classes alone (as far as `cn` does). */
  datatype AiStyles = AiStyles(
    card: Option<string>,
    header: Option<string>,
    mainTitle: Option<string>,
    articleContainer: Option<string>,
    articleTitle: Option<string>,
    footer: Option<string>)

  /** `marked.parse`. */
  type Markdown = string -> string

  /** `cn(base, token)`. */
  type ClassMerge = (string, Option<string>) -> string

  // The literal text of the templates, piece by piece.
  const Charset := "UTF-T-8"
  const HeadStart :=
    "\n"
    + "    <!DOCTYPE html>\n"
    + "    <html lang=\"en\">\n"
    + "    <head>\n"
    + "      <meta charset=\""
  const HeadMiddle :=
    "\">\n"
    + "      <meta name=\"viewport\" content=\"width=device-width, "
    + "initial-scale=1.0\">\n"
    + "      "
  const HeadEnd :=
    "\n"
    + "      <script src=\"https://cdn.tailwindcss.com\"></script>\n"
    + "    </head>\n"
    + "    <body class=\"bg-gray-100 p-4 md:p-8\">\n"
    + "      "
  const Indent8 := "\n        "
  const Indent10 := "\n          "
  const Indent12 := "\n            "
  const SubjectOpen := "<p class=\"text-center text-sm text-gray-500 mt-2\">Subject: "
  const MainOpen :=
    "\n"
    + "        </header>\n"
    + "        <main class=\"p-6\">\n"
    + "          "
  const FooterOpen :=
    "\n"
    + "          <div class=\"text-center text-xs text-gray-400 "
    + "pt-6 border-t border-gray-200 mt-8\">\n"
    + "            "
  const CopyrightRest :=
    " <a href=\"#\" target=\"_blank\" rel=\"noopener noreferrer\" "
    + "style=\"text-decoration: underline; color: #3b82f6;\">Your "
    + "Company</a>. All rights reserved.</p>"
  const DocumentEnd :=
    "\n"
    + "          </div>\n"
    + "        </main>\n"
    + "      </div>\n"
    + "    </body>\n"
    + "    </html>\n"
    + "  "
  const CardBase :=
    "w-full max-w-2xl mx-auto shadow-lg bg-white rounded-lg "
    + "overflow-hidden"
  const HeaderBase := "p-6"
  const MainTitleBase := "text-3xl font-bold text-center"
  const ArticleContainerBase := "py-4"
  const ArticleTitleBase := "text-xl font-semibold mb-2"
  const ProseOpen :=
    "<div class=\"prose prose-sm max-w-none\">\n"
    + "              "
  const ProseClose := "\n            </div>"
  const CardClose := "\n          </div>\n          "
  const Separator := "<hr class=\"my-6 border-gray-200\" />"
  const ItemTail := "\n        "
  const ImageFrameOpen :=
    "\n"
    + "              <div style=\"position: relative; width: 100%; "
    + "padding-bottom: 56.25%; overflow: hidden; border-radius: "
    + "0.5rem; margin-bottom: 1rem;\">\n"
    + "                <img\n"
    + "                  "
  const ImageIndent := "\n                  "
  const ImageFrameClose :=
    "\n"
    + "                  style=\"position: absolute; top: 0; left: "
    + "0; width: 100%; height: 100%; object-fit: cover;\"\n"
    + "                />\n"
    + "              </div>"
  const DefaultAlt := "Article Image"
  const LinkOpen :=
    "\n"
    + "            <div style=\"margin-top: 1rem;\">\n"
    + "              "
  const AnchorRest :=
    " target=\"_blank\" rel=\"noopener noreferrer\" style=\"display: "
    + "inline-block; padding: 0.5rem 1rem; border: 1px solid "
    + "#e5e7eb; border-radius: 0.375rem; text-decoration: none; "
    + "color: #374151; font-size: 0.875rem;\">\n"
    + "                "
  const SourceLinkLabel := "\U{AE30}\U{C0AC} \U{BCF4}\U{AE30}"
  const AnchorClose := "\n              </a>"
  const LinkClose := "\n            </div>\n            "

  function ClassOpen(tag: string, cls: string): string {
    "<" + tag + " class=\"" + cls + "\">"
  }

  function TitleElement(title: string): string {
    "<title>" + title + "</title>"
  }

  function MainTitle(cls: string, title: string): string {
    ClassOpen("h1", cls) + title + "</h1>"
  }

  function SubjectLine(subject: string): string {
    SubjectOpen + subject + "</p>"
  }

  function Copyright(year: nat): string {
    "<p>&copy; " + NatToString(year) + CopyrightRest
  }

  /** The article body: HTML content verbatim, anything else through the markdown converter; missing content is `''`. */
  function ContentHtml(a: Article, md: Markdown): string {
    if a.contentType == Some("html") then OrElse(a.content, "") else md(OrElse(a.content, ""))
  }

  function SrcAttr(url: string): string {
    "src=\"" + url + "\""
  }

  function AltAttr(alt: string): string {
    "alt=\"" + alt + "\""
  }

  /** The image frame, or nothing when `imageUrl` is falsy. */
  function ImageBlock(a: Article): string {
    if Truthy(a.imageUrl) then
      Concat([ImageFrameOpen, SrcAttr(a.imageUrl.value), ImageIndent, AltAttr(OrElse(a.title, DefaultAlt)), ImageFrameClose])
    else ""
  }

  function AnchorOpen(url: string): string {
    "<a href=\"" + url + "\""
  }

  function Anchor(url: string): string {
    Concat([AnchorOpen(url), AnchorRest, SourceLinkLabel, AnchorClose])
  }

  /** The link to the source article, or nothing when `url` is falsy. */
  function SourceLink(a: Article): string {
    if Truthy(a.url) then Concat([LinkOpen, Anchor(a.url.value), LinkClose]) else ""
  }

  function ArticleHeading(cls: string, title: string): string {
    ClassOpen("h3", cls) + title + "</h3>"
  }

  function ContentBlock(html: string): string {
    ProseOpen + html + ProseClose
  }

  /** One article's block, up to where the separator goes. */
  function ArticleCard(a: Article, styles: AiStyles, md: Markdown, cn: ClassMerge): string {
    Concat([
      Indent10, ClassOpen("div", cn(ArticleContainerBase, styles.articleContainer)),
      Indent12, ImageBlock(a),
      Indent12, ArticleHeading(cn(ArticleTitleBase, styles.articleTitle), OrElse(a.title, "")),
      Indent12, ContentBlock(ContentHtml(a, md)),
      Indent12, SourceLink(a),
      CardClose])
  }

  /** The `map` callback for the article at `index` of `count`. */
  function ArticleItem(a: Article, index: nat, count: nat, styles: AiStyles, md: Markdown, cn: ClassMerge): string {
    ArticleCard(a, styles, md, cn) + (if index < count - 1 then Separator else "") + ItemTail
  }

  /** `articles.map(...).join('')`. */
  function ArticlesHtml(articles: seq<Article>, styles: AiStyles, md: Markdown, cn: ClassMerge): string {
    Concat(seq(|articles|, i requires 0 <= i < |articles| => ArticleItem(articles[i], i, |articles|, styles, md, cn)))
  }

  /** The whole document. */
  function Document(data: NewsletterData, styles: AiStyles, year: nat, md: Markdown, cn: ClassMerge): string {
    Concat(DocumentParts(data, styles, year, md, cn))
  }

  function DocumentParts(data: NewsletterData, styles: AiStyles, year: nat, md: Markdown, cn: ClassMerge): seq<string> {
    [ HeadStart, Charset, HeadMiddle, TitleElement(data.newsletterTitle), HeadEnd,
      ClassOpen("div", cn(CardBase, styles.card)), Indent8,
      ClassOpen("header", cn(HeaderBase, styles.header)), Indent10,
      MainTitle(cn(MainTitleBase, styles.mainTitle), data.newsletterTitle), Indent10,
      SubjectLine(data.newsletterSubject), MainOpen,
      ArticlesHtml(data.articles, styles, md, cn),
      FooterOpen, Copyright(year), DocumentEnd ]
  }

  /** Articles are rendered one block each, in input order; a separator follows every block but the last. */
  lemma {:induction false} ArticlesHtmlCons(articles: seq<Article>, styles: AiStyles, md: Markdown, cn: ClassMerge)
    ensures |articles| == 0 ==> ArticlesHtml(articles, styles, md, cn) == ""
    ensures |articles| > 0 ==>
      ArticlesHtml(articles, styles, md, cn) ==
        ArticleCard(articles[0], styles, md, cn) + (if |articles| > 1 then Separator else "") + ItemTail
        + ArticlesHtml(articles[1..], styles, md, cn)
  {
    if |articles| > 0 {
      var n := |articles|;
      var items := seq(n, i requires 0 <= i < n => ArticleItem(articles[i], i, n, styles, md, cn));
      var rest := articles[1..];
      assert items[1..] == seq(n - 1, i requires 0 <= i < n - 1 => ArticleItem(rest[i], i, n - 1, styles, md, cn));
    }
  }

  /** The block at `index` carries the separator exactly when it is not the last one. */
  lemma {:induction false} SeparatorPlacement(articles: seq<Article>, index: nat, styles: AiStyles, md: Markdown, cn: ClassMerge)
    requires index < |articles|
    ensures ArticleItem(articles[index], index, |articles|, styles, md, cn)
            == ArticleCard(articles[index], styles, md, cn) + Separator + ItemTail
            <==> index < |articles| - 1
  {
    var card := ArticleCard(articles[index], styles, md, cn);
    if index >= |articles| - 1 {
      assert |card + ItemTail| != |card + Separator + ItemTail|;
    }
  }

  /** Whether the block at `i` ends its card with the separator. */
  predicate Separated(articles: seq<Article>, i: nat, styles: AiStyles, md: Markdown, cn: ClassMerge)
    requires i < |articles|
  {
    ArticleItem(articles[i], i, |articles|, styles, md, cn) == ArticleCard(articles[i], styles, md, cn) + Separator + ItemTail
  }

  /** How many of the first `k` blocks carry the separator. */
  function SeparatorsAmong(articles: seq<Article>, k: nat, styles: AiStyles, md: Markdown, cn: ClassMerge): nat
    requires k <= |articles|
  {
    if k == 0 then 0
    else SeparatorsAmong(articles, k - 1, styles, md, cn) + (if Separated(articles, k - 1, styles, md, cn) then 1 else 0)
  }

  lemma {:induction false} SeparatorsAmongPrefix(articles: seq<Article>, k: nat, styles: AiStyles, md: Markdown, cn: ClassMerge)
    requires k <= |articles|
    ensures SeparatorsAmong(articles, k, styles, md, cn) == if k < |articles| || k == 0 then k else k - 1
  {
    if k > 0 {
      SeparatorsAmongPrefix(articles, k - 1, styles, md, cn);
      SeparatorPlacement(articles, k - 1, styles, md, cn);
    }
  }

  /** `n` articles yield `max(n - 1, 0)` separators. */
  lemma {:induction false} SeparatorCount(articles: seq<Article>, styles: AiStyles, md: Markdown, cn: ClassMerge)
    ensures SeparatorsAmong(articles, |articles|, styles, md, cn) == if |articles| == 0 then 0 else |articles| - 1
  {
    SeparatorsAmongPrefix(articles, |articles|, styles, md, cn);
  }

  /** Every article's block, with its separator, occurs in the document. */
  lemma {:induction false} ArticleInDocument(data: NewsletterData, styles: AiStyles, year: nat, md: Markdown, cn: ClassMerge, k: nat)
    requires k < |data.articles|
    ensures Contains(Document(data, styles, year, md, cn),
                     ArticleItem(data.articles[k], k, |data.articles|, styles, md, cn))
  {
    var arts := data.articles;
    var n := |arts|;
    var items := seq(n, i requires 0 <= i < n => ArticleItem(arts[i], i, n, styles, md, cn));
    ConcatHasPart(items, k);
    var parts := DocumentParts(data, styles, year, md, cn);
    ConcatHasPart(parts, 13);
    ContainsTrans(Document(data, styles, year, md, cn), ArticlesHtml(arts, styles, md, cn), items[k]);
  }

  /** The block of an article contains its own card. */
  lemma {:induction false} CardInItem(a: Article, index: nat, count: nat, styles: AiStyles, md: Markdown, cn: ClassMerge)
    ensures Contains(ArticleItem(a, index, count, styles, md, cn), ArticleCard(a, styles, md, cn))
  {
    var card := ArticleCard(a, styles, md, cn);
    ContainsWitness(ArticleItem(a, index, count, styles, md, cn), "", card,
                    (if index < count - 1 then Separator else "") + ItemTail);
  }

  /**
   * Content typed `'html'` is inserted verbatim and unescaped; any other content
   * goes through the markdown converter; missing content counts as `''`.
   */
  lemma {:induction false} ContentEmbedding(a: Article, styles: AiStyles, md: Markdown, cn: ClassMerge)
    ensures a.contentType == Some("html") ==>
      Contains(ArticleCard(a, styles, md, cn), ProseOpen + OrElse(a.content, "") + ProseClose)
    ensures a.contentType != Some("html") ==>
      Contains(ArticleCard(a, styles, md, cn), ProseOpen + md(OrElse(a.content, "")) + ProseClose)
  {
    var parts := [
      Indent10, ClassOpen("div", cn(ArticleContainerBase, styles.articleContainer)),
      Indent12, ImageBlock(a),
      Indent12, ArticleHeading(cn(ArticleTitleBase, styles.articleTitle), OrElse(a.title, "")),
      Indent12, ContentBlock(ContentHtml(a, md)),
      Indent12, SourceLink(a),
      CardClose];
    ConcatHasPart(parts, 7);
  }

  /** The image frame is present iff `imageUrl` is truthy; its `src` is the URL and its `alt` the title or `'Article Image'`. */
  lemma {:induction false} ImageBlockPresence(a: Article, styles: AiStyles, md: Markdown, cn: ClassMerge)
    ensures ImageBlock(a) != "" <==> Truthy(a.imageUrl)
    ensures Contains(ArticleCard(a, styles, md, cn), ImageBlock(a))
    ensures Truthy(a.imageUrl) ==> Contains(ImageBlock(a), SrcAttr(a.imageUrl.value))
    ensures Truthy(a.imageUrl) ==> Contains(ImageBlock(a), AltAttr(if Truthy(a.title) then a.title.value else DefaultAlt))
  {
    var parts := [
      Indent10, ClassOpen("div", cn(ArticleContainerBase, styles.articleContainer)),
      Indent12, ImageBlock(a),
      Indent12, ArticleHeading(cn(ArticleTitleBase, styles.articleTitle), OrElse(a.title, "")),
      Indent12, ContentBlock(ContentHtml(a, md)),
      Indent12, SourceLink(a),
      CardClose];
    ConcatHasPart(parts, 3);
    if Truthy(a.imageUrl) {
      var frame := [ImageFrameOpen, SrcAttr(a.imageUrl.value), ImageIndent, AltAttr(OrElse(a.title, DefaultAlt)), ImageFrameClose];
      ConcatHasPart(frame, 1);
      ConcatHasPart(frame, 3);
      ConcatHasPart(frame, 0);
    }
  }

  /** The source link is present iff `url` is truthy; it points at the URL and reads "기사 보기". */
  lemma {:induction false} SourceLinkPresence(a: Article, styles: AiStyles, md: Markdown, cn: ClassMerge)
    ensures SourceLink(a) != "" <==> Truthy(a.url)
    ensures Contains(ArticleCard(a, styles, md, cn), SourceLink(a))
    ensures Truthy(a.url) ==> Contains(SourceLink(a), AnchorOpen(a.url.value))
    ensures Truthy(a.url) ==> Contains(SourceLink(a), SourceLinkLabel)
  {
    var parts := [
      Indent10, ClassOpen("div", cn(ArticleContainerBase, styles.articleContainer)),
      Indent12, ImageBlock(a),
      Indent12, ArticleHeading(cn(ArticleTitleBase, styles.articleTitle), OrElse(a.title, "")),
      Indent12, ContentBlock(ContentHtml(a, md)),
      Indent12, SourceLink(a),
      CardClose];
    ConcatHasPart(parts, 9);
    if Truthy(a.url) {
      var link := [LinkOpen, Anchor(a.url.value), LinkClose];
      var anchor := [AnchorOpen(a.url.value), AnchorRest, SourceLinkLabel, AnchorClose];
      ConcatHasPart(link, 1);
      ConcatHasPart(link, 0);
      ConcatHasPart(anchor, 0);
      ConcatHasPart(anchor, 2);
      ContainsTrans(SourceLink(a), Anchor(a.url.value), AnchorOpen(a.url.value));
      ContainsTrans(SourceLink(a), Anchor(a.url.value), SourceLinkLabel);
    }
  }

  /** Each article's container and heading carry `cn(base, token)`; the heading shows the title or nothing. */
  lemma {:induction false} ArticleClasses(a: Article, styles: AiStyles, md: Markdown, cn: ClassMerge)
    ensures Contains(ArticleCard(a, styles, md, cn), ClassOpen("div", cn(ArticleContainerBase, styles.articleContainer)))
    ensures Contains(ArticleCard(a, styles, md, cn),
                     ClassOpen("h3", cn(ArticleTitleBase, styles.articleTitle)) + OrElse(a.title, "") + "</h3>")
  {
    var parts := [
      Indent10, ClassOpen("div", cn(ArticleContainerBase, styles.articleContainer)),
      Indent12, ImageBlock(a),
      Indent12, ArticleHeading(cn(ArticleTitleBase, styles.articleTitle), OrElse(a.title, "")),
      Indent12, ContentBlock(ContentHtml(a, md)),
      Indent12, SourceLink(a),
      CardClose];
    ConcatHasPart(parts, 1);
    ConcatHasPart(parts, 5);
  }

  /** The title appears unescaped in `<title>` and in the `<h1>`, the subject in the "Subject:" line. */
  lemma {:induction false} DocumentTitles(data: NewsletterData, styles: AiStyles, year: nat, md: Markdown, cn: ClassMerge)
    ensures Contains(Document(data, styles, year, md, cn), TitleElement(data.newsletterTitle))
    ensures Contains(Document(data, styles, year, md, cn), MainTitle(cn(MainTitleBase, styles.mainTitle), data.newsletterTitle))
    ensures Contains(Document(data, styles, year, md, cn), SubjectLine(data.newsletterSubject))
  {
    var parts := DocumentParts(data, styles, year, md, cn);
    ConcatHasPart(parts, 3);
    ConcatHasPart(parts, 9);
    ConcatHasPart(parts, 11);
  }

  /** The card and the header carry `cn(base, token)` (the main title's class is in `DocumentTitles`). */
  lemma {:induction false} DocumentClasses(data: NewsletterData, styles: AiStyles, year: nat, md: Markdown, cn: ClassMerge)
    ensures Contains(Document(data, styles, year, md, cn), ClassOpen("div", cn(CardBase, styles.card)))
    ensures Contains(Document(data, styles, year, md, cn), ClassOpen("header", cn(HeaderBase, styles.header)))
  {
    var parts := DocumentParts(data, styles, year, md, cn);
    ConcatHasPart(parts, 5);
    ConcatHasPart(parts, 7);
  }

  /** The copyright line shows the year it is given. */
  lemma {:induction false} DocumentCopyright(data: NewsletterData, styles: AiStyles, year: nat, md: Markdown, cn: ClassMerge)
    ensures Contains(Document(data, styles, year, md, cn), Copyright(year))
  {
    var parts := DocumentParts(data, styles, year, md, cn);
    ConcatHasPart(parts, 15);
  }

  /** The document is standalone: it opens with the doctype and closes the `html` element. */
  lemma {:induction false} DocumentFrame(data: NewsletterData, styles: AiStyles, year: nat, md: Markdown, cn: ClassMerge)
    ensures HeadStart <= Document(data, styles, year, md, cn)
    ensures var doc := Document(data, styles, year, md, cn);
            |DocumentEnd| <= |doc| && doc[|doc| - |DocumentEnd|..] == DocumentEnd
  {
    ConcatEnds(DocumentParts(data, styles, year, md, cn));
  }

  /** `styles.footer` is never read: changing it does not change the document. */
  lemma {:induction false} FooterTokenIgnored(data: NewsletterData, styles: AiStyles, footer: Option<string>, year: nat, md: Markdown, cn: ClassMerge)
    ensures Document(data, styles.(footer := footer), year, md, cn) == Document(data, styles, year, md, cn)
  {
    var other := styles.(footer := footer);
    var n := |data.articles|;
    assert seq(n, i requires 0 <= i < n => ArticleItem(data.articles[i], i, n, other, md, cn))
        == seq(n, i requires 0 <= i < n => ArticleItem(data.articles[i], i, n, styles, md, cn));
  }

  /** Article summaries are never rendered: documents that differ only in summaries are equal. */
  lemma {:induction false} SummaryIgnored(data: NewsletterData, articles: seq<Article>, styles: AiStyles, year: nat, md: Markdown, cn: ClassMerge)
    requires |articles| == |data.articles|
    requires forall i :: 0 <= i < |articles| ==> articles[i].(summary := None) == data.articles[i].(summary := None)
    ensures Document(data.(articles := articles), styles, year, md, cn) == Document(data, styles, year, md, cn)
  {
    var n := |articles|;
    forall i | 0 <= i < n
      ensures ArticleItem(articles[i], i, n, styles, md, cn) == ArticleItem(data.articles[i], i, n, styles, md, cn)
    {
      assert articles[i].(summary := None) == data.articles[i].(summary := None);
    }
    assert seq(n, i requires 0 <= i < n => ArticleItem(articles[i], i, n, styles, md, cn))
        == seq(n, i requires 0 <= i < n => ArticleItem(data.articles[i], i, n, styles, md, cn));
  }
}
