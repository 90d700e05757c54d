# Crawl worker model

A Dafny model of the single-hop web-crawl worker in `index.js`. The worker is triggered once per message carrying a crawl edge `{from, to}`. It decides whether to visit the child url `to`, fetches the page and extracts a reader-mode article, and harvests the article's links. It then publishes one new edge per link and records the crawl: a ledger entry `to -> crawledAt` and an article event.

Modules:

- `Wrappers` (`wrappers.dfy`): the `Option` type.
- `Links` (`links.dfy`): `split('?')[0]` query stripping, the `isLinkStrictUrl` predicate and its hostname clause, the `filter` that keeps strict urls, and `getArticleLinks` as a loop that pushes the stripped hrefs.
- `Policy` (`policy.dfy`): the whitelist and blacklist `some(r => url.match(r))` tests.
- `Extraction` (`extraction.dfy`): `getArticle`, with its content-type gate, the readability gate and extraction.
- `Crawler` (`crawler.dfy`): the invocation as a pure function `Crawl` over an abstract `State`, and the gate and success-path lemmas about it. The `Worker` class holds the ledger (`map<string, int>`) and the two topics (sequences of events) as fields. `PublishLinks` appends to the link topic in a loop, proved against `Published`. `SaveArticle` writes the ledger entry and the article event, each stated as an exact update. `IsUrlAlreadyCrawled` only reads the ledger. `Crawler` runs the whole pipeline step by step and is proved equal to `Crawl` on the worker's old state.

Behaviour modelled as the code has it, where it differs from what its messages or design suggest:

- The parent gate at index.js:31 returns early when `from` is empty or **does** match the whitelist, although its log message reads "parent url not whitelisted". A design in which only allow-listed parents are crawled would be the opposite test. The model keeps the code's test (`Crawler.ParentGate`).
- The hostname clause `!(!url.hostname && url.hostname === 'localhost')` at index.js:107 can never be false. So `isLinkStrictUrl` accepts exactly the strings the URL parser accepts, including urls with an empty hostname or the hostname `localhost` (`Links.HostnameClause`, `Links.IsLinkStrictUrl`).
- The invocation does not absorb every failure. A failure of `saveArticle` is caught (index.js:147-149). A failed link publish rejects the promise of `publishLinks`, and through `Promise.all` the handler itself (outcome `Rejected`). The other branch still runs, because `Promise.all` cancels nothing.
- The ledger lookup is fail-open: a failed `datastore.get` reads as "not crawled" (index.js:60-63).

Oracles: the HTTP client, the DOM parser with the readability heuristic and extractor, the anchors' hrefs, the WHATWG URL parser and regular-expression matching are function-typed fields of `Extraction.Web` and `Policy.Config`. Which storage and messaging calls fail is given by `Crawler.Faults`. The time `Date.now()` is the parameter `now`.

## Model

| member | source | states |
|---|---|---|
| `Links.Split` | index.js:95 | `split` yields at least one piece, no piece contains the separator, and the first piece is the prefix of the string up to its first separator |
| `Links.SplitCount` | index.js:95 | there is exactly one more piece than there are separators |
| `Links.JoinSplit` | index.js:95 | joining the pieces with the separator gives back the original string |
| `Links.StripQuery` | index.js:95 | a harvested link is a prefix of its href, contains no `?`, stops at the href's first `?`, and equals the href when it has no `?` |
| `Links.StripQueryIdempotent` | index.js:95 | stripping twice is stripping once |
| `Links.StripQueryAtFirstMark` | index.js:95 | the link is exactly the href cut at its first `?` |
| `Links.StripQueryExample` | index.js:95 | `https://ex.com/a?x=1` becomes `https://ex.com/a` |
| `Links.HostnameClause` | index.js:107 | the hostname clause `!(!hostname && hostname === 'localhost')` holds of every hostname, so it never rejects a url |
| `Links.IsLinkStrictUrl` | index.js:104-111 | a string is a strict url exactly when the URL parser accepts it |
| `Links.KeepStrict` | index.js:97 | the filter keeps at most the given links, every kept link parses, and every kept link is one of the inputs |
| `Links.KeepStrictAppend` | index.js:97 | the filter preserves order: filtering a concatenation filters each part in turn |
| `Links.KeepStrictCount` | index.js:97 | each accepted link is kept as many times as it occurs (duplicates retained); each rejected link is dropped |
| `Links.ArticleLinks` | index.js:91-98 | there are no more links than anchors, and each link has no `?` and parses as a url |
| `Links.ArticleLinksAppend` | index.js:93-97 | links come out in document order: those of earlier anchors before those of later ones |
| `Links.ArticleLinksSingle` | index.js:94-97 | one anchor yields its stripped href exactly when the parser accepts it, and nothing otherwise |
| `Links.GetArticleLinks` | index.js:91-98 | the push loop followed by the filter returns exactly `ArticleLinks` of the anchors' hrefs |
| `Policy.AnyMatch` | index.js:117-119 | `some` over the patterns is true exactly when some pattern matches the url |
| `Policy.IsLinkWhiteListed` | index.js:117-119 | a url is whitelisted exactly when some whitelist pattern matches it |
| `Policy.IsBlacklisted` | index.js:35 | a url is blacklisted exactly when some blacklist pattern matches it |
| `Policy.AnyMatchSubset` | index.js:117-119 | a url that matches a list still matches any list holding at least those patterns |
| `Policy.AnyMatchPermutation` | index.js:117-119 | the order of the patterns in a list does not change the verdict |
| `Extraction.Includes` | index.js:73 | `includes` is true exactly when the substring occurs at some position |
| `Extraction.WithoutLetterHNotHtml` | index.js:73 | a content type without the letter `h` never passes the `html` test |
| `Extraction.IsHtml` | index.js:73 | a response passes the content-type gate exactly when its `content-type` header is present and `html` occurs in it at some position |
| `Extraction.GetArticle` | index.js:70-85 | an article is produced exactly when the GET succeeds, the content type is present and mentions `html`, the page is readerable and the extractor returns an article, and then it is that article |
| `Extraction.JsonIsNotFetchable` | index.js:73-75 | an `application/json` response yields no article |
| `Extraction.UnreadablePageHasNoArticle` | index.js:77-79 | a page the readability heuristic rejects yields no article |
| `Crawler.Published` | index.js:126-128 | no more link events than links, each from the parent url and to one of the links |
| `Crawler.PublishedAll` | index.js:126-128 | when no publish fails there is exactly one event per link, in link order, each `{to: link, from: parentUrl}` |
| `Crawler.Crawl` | index.js:29-53 | any early exit leaves the state untouched; only ledger key `to` can be written, to the save time; events are only appended; new link events all come from `to`; at most one article event is added |
| `Crawler.ParentGate` | index.js:31-34 | an empty parent, or one matching a whitelist pattern, ends the invocation with no effect |
| `Crawler.BlacklistGate` | index.js:35-38 | a child matching a blacklist pattern ends the invocation with no lookup result used, no fetch, no write and no event |
| `Crawler.LedgerGate` | index.js:40-43 | past the first two gates, the invocation stops as already crawled exactly when the ledger holds `to` and the lookup did not fail |
| `Crawler.ArticleGate` | index.js:44-47 | past the first three gates, the invocation ends with no effect exactly when there is no article |
| `Crawler.SuccessPath` | index.js:48-52 | past every gate, whatever fails: the ledger maps `to` to the save time unless the save fails; the article event `{url: to, article, links}` is added unless its publish fails; the link events appended are `Published(links, to, …)`. Neither save failure changes the outcome, which is `Crawled` or `Rejected`, and `Crawled` exactly when every link publish succeeds; then one link event per link is appended in link order, each `{to: link, from: to}` |
| `Crawler.CrawlRecords` | index.js:48-52 | past every gate the invocation ends in the state both branches leave behind (`Recorded`), with outcome `Crawled` when every link publish succeeds and `Rejected` otherwise |
| `Crawler.RedeliveryIsNoop` | index.js:40-52 | redelivering an edge whose crawl was recorded is a no-op while the ledger is readable |
| `Crawler.FailOpenRecrawls` | index.js:55-64 | when the ledger lookup fails, a fetchable child is crawled again even if it was recorded |
| `Crawler.Worker.IsUrlAlreadyCrawled` | index.js:55-64 | a failed lookup answers "not crawled"; otherwise the answer is whether the ledger holds the url |
| `Crawler.Worker.PublishLinks` | index.js:126-128 | appends the accepted link events to the link topic; returns false exactly when some publish fails |
| `Crawler.Worker.SaveArticle` | index.js:136-150 | writes `url -> now` unless the save fails and appends the article event unless its publish fails; neither failure escapes |
| `Crawler.Worker.Crawler` | index.js:29-53 | the worker's new ledger, topics and outcome are those of `Crawl` on its old state; any early exit changes nothing |

## Left out

- Decoding of the inbound message (index.js:30, base64 and JSON) is not modelled: `from` and `to` are given as strings, and a falsy `from` is the empty string. A message without `to` would throw at `to.match` when the blacklist is non-empty (with an empty blacklist the lookup and the GET fail inside their own try blocks and the handler returns with no effect); that case is not modelled.
- The HTTP GET (index.js:72), the DOM parsing (index.js:76, 92), `isProbablyReaderable` and `Readability.parse` (index.js:77-81) and the querying of the anchors (index.js:94) are oracles. A throw by the DOM parser in `getArticleLinks` (index.js:92), which would reject the handler, is not modelled.
- The WHATWG URL parser (index.js:106) and regular-expression matching for the lists (index.js:35, 118) are uninterpreted oracles.
- The Datastore and Pub/Sub clients, the topic batching settings (index.js:9-20) and the environment variables are not modelled. A failed call is a flag in `Crawler.Faults`, and a failed publish or save appends or writes nothing.
- `Date.now()` (index.js:142) is the parameter `now`.
- Concurrency of `Promise.all` (index.js:49-52, 127, 138-146) is not modelled: the branches are modelled as sequential writes to separate fields. The race between two invocations for the same url is outside a single-invocation model.
- The truthiness test `Boolean(article[0])` (index.js:59) is modelled as the presence of the key in the ledger, since a stored entity is always an object.
- Console logging.
- `Crawler.Published`: the function's own contract only bounds the events. The exact one-event-per-link statement is `Crawler.PublishedAll`, which assumes no publish fails.
