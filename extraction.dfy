/**
 * `getArticle` (index.js:70-85): one GET, a content-type gate, the readability heuristic and the
 * reader-mode extraction. The HTTP client, the DOM and the readability library are oracles.
 */
module Extraction {
  import opened Wrappers
  import opened Links

  /** What `Readability.parse` returns on success. */
  datatype Article = Article(
    title: string,
    excerpt: string,
    content: string,
    textContent: string,
    byline: string,
    siteName: string,
    length: int)

  /** A response of `axios.get`: its `content-type` header (`None` when absent) and its body. */
  datatype Response = Response(contentType: Option<string>, data: string)

  /** The collaborators of one invocation. */
  datatype Web = Web(
    /** `axios.get(url)`; `None` when it throws (transport error, non-success status). */
    get: string -> Option<Response>,
    /** `isProbablyReaderable` on the page body parsed at the url; a throw reads as `false`. */
    readerable: (string, string) -> bool,
    /** `new Readability(document).parse()`; `None` for `null` or a throw. */
    parse: (string, string) -> Option<Article>,
    /** The `href` of every `<a>` of an article's content, in document order. */
    anchors: string -> seq<string>,
    /** `new URL(s)`. */
    parseUrl: UrlParser)

  /** `s.includes(sub)`. */
  function Includes(s: string, sub: string): (found: bool)
    ensures found <==> exists i :: 0 <= i <= |s| && sub <= s[i..]
  {
    if sub <= s then
      assert s[0..] == s;
      true
    else if s == [] then false
    else
      var rest := Includes(s[1..], sub);
      assert rest <==> exists i :: 0 <= i <= |s| && sub <= s[i..] by {
        if rest {
          var j :| 0 <= j <= |s[1..]| && sub <= s[1..][j..];
          assert s[1..][j..] == s[j + 1..];
        } else {
          forall i | 0 <= i <= |s| ensures !(sub <= s[i..]) {
            if i > 0 {
              assert s[1..][i - 1..] == s[i..];
            }
          }
        }
      }
      rest
  }

  /** The gate of index.js:73: a `content-type` header that is present, non-empty and mentions `html`. */
  predicate IsHtml(response: Response)
    ensures IsHtml(response) <==>
      response.contentType.Some? && exists i :: 0 <= i <= |response.contentType.value| && "html" <= response.contentType.value[i..]
  {
    response.contentType.Some? && Includes(response.contentType.value, "html")
  }

  /** `getArticle` (index.js:70-85): every failure, thrown or not, collapses to "no article". */
  function GetArticle(url: string, web: Web): (article: Option<Article>)
    ensures article.Some? <==>
      && web.get(url).Some?
      && IsHtml(web.get(url).value)
      && web.readerable(web.get(url).value.data, url)
      && web.parse(web.get(url).value.data, url).Some?
    ensures article.Some? ==> article == web.parse(web.get(url).value.data, url)
  {
    match web.get(url)
    case None => None
    case Some(response) =>
      if !IsHtml(response) then None
      else if !web.readerable(response.data, url) then None
      else web.parse(response.data, url)
  }

  /** A content type without the letter `h` cannot mention `html`. */
  lemma WithoutLetterHNotHtml(contentType: string)
    requires 'h' !in contentType
    ensures !Includes(contentType, "html")
  {
    forall i | 0 <= i <= |contentType| ensures !("html" <= contentType[i..]) {
      if i < |contentType| {
        assert contentType[i..][0] == contentType[i] != 'h';
      }
    }
  }

  /** A JSON response is not fetchable: no extraction is attempted. */
  lemma JsonIsNotFetchable(url: string, web: Web, body: string)
    requires web.get(url) == Some(Response(Some("application/json"), body))
    ensures GetArticle(url, web) == None
  {
    WithoutLetterHNotHtml("application/json");
  }

  /** A page the readability heuristic rejects yields no article, whatever the extractor would make of it. */
  lemma UnreadablePageHasNoArticle(url: string, web: Web, response: Response)
    requires web.get(url) == Some(response)
    requires !web.readerable(response.data, url)
    ensures GetArticle(url, web) == None
  {
  }
}
