/**
 * The per-message pipeline of `exports.crawler` (index.js:29-53) and its effects: link events to the
 * new-link topic, a crawl record in the ledger and an article event to the new-article topic.
 */
module Crawler {
  import opened Wrappers
  import opened Links
  import opened Policy
  import opened Extraction

  /** A new edge of the crawl graph, as published by `publishLinks` (index.js:127). */
  datatype LinkEvent = LinkEvent(to: string, from: string)

  /** The completed crawl, as published by `saveArticle` (index.js:145). */
  datatype ArticleEvent = ArticleEvent(url: string, article: Article, links: seq<string>)

  /**
   * What the invocation can change: the ledger of crawled urls (url to `crawledAt`) and the
   * messages accepted by the two topics, in publication order.
   */
  datatype State = State(ledger: map<string, int>, linkEvents: seq<LinkEvent>, articleEvents: seq<ArticleEvent>)

  /** How the invocation ends. Every outcome but `Rejected` is a resolved promise. */
  datatype Outcome =
    | ParentSkipped     // index.js:31-34
    | ChildBlacklisted  // index.js:35-38
    | AlreadyCrawled    // index.js:40-43
    | NoArticle         // index.js:44-47
    | Crawled           // index.js:48-52, every link published
    | Rejected          // a link publish failed: the handler's promise rejects

  /** Which storage and messaging calls fail during one invocation. */
  datatype Faults = Faults(
    /** `datastore.get` throws (index.js:58). */
    lookupFails: bool,
    /** The publish of the i-th link throws (index.js:127). */
    linkPublishFails: nat -> bool,
    /** `datastore.save` throws (index.js:139). */
    saveFails: bool,
    /** The article publish throws (index.js:145). */
    articlePublishFails: bool)

  /** The link events the topic accepts for `links`, in link order: one per link whose publish succeeds. */
  function Published(links: seq<string>, parentUrl: string, fails: nat -> bool): (events: seq<LinkEvent>)
    ensures |events| <= |links|
    ensures forall k :: 0 <= k < |events| ==> events[k].from == parentUrl && events[k].to in links
  {
    if links == [] then []
    else
      var n := |links| - 1;
      Published(links[..n], parentUrl, fails) + (if fails(n) then [] else [LinkEvent(links[n], parentUrl)])
  }

  /** Whether every one of the first `n` link publishes succeeds. */
  predicate AllPublished(n: nat, fails: nat -> bool)
  {
    forall i :: 0 <= i < n ==> !fails(i)
  }

  /** When no publish fails, there is exactly one event per link, in link order, each `{to: link, from: parentUrl}`. */
  lemma {:induction false} PublishedAll(links: seq<string>, parentUrl: string, fails: nat -> bool)
    requires AllPublished(|links|, fails)
    ensures |Published(links, parentUrl, fails)| == |links|
    ensures forall k :: 0 <= k < |links| ==> Published(links, parentUrl, fails)[k] == LinkEvent(links[k], parentUrl)
  {
    if links != [] {
      var n := |links| - 1;
      var prefix := Published(links[..n], parentUrl, fails);
      assert AllPublished(n, fails);
      PublishedAll(links[..n], parentUrl, fails);
      assert !fails(n);
      assert Published(links, parentUrl, fails) == prefix + [LinkEvent(links[n], parentUrl)];
      forall k | 0 <= k < n
        ensures Published(links, parentUrl, fails)[k] == LinkEvent(links[k], parentUrl)
      {
        assert prefix[k] == LinkEvent(links[..n][k], parentUrl);
      }
    }
  }

  /**
   * The state after the two concurrent branches of index.js:49-52: the link publishes, and the crawl
   * record with the article event. Each write is missing exactly when its call fails.
   */
  function Recorded(s: State, faults: Faults, now: int, to: string, article: Article, links: seq<string>): State
  {
    State(
      if faults.saveFails then s.ledger else s.ledger[to := now],
      s.linkEvents + Published(links, to, faults.linkPublishFails),
      s.articleEvents + (if faults.articlePublishFails then [] else [ArticleEvent(to, article, links)]))
  }

  /**
   * One invocation of `exports.crawler` (index.js:29-53) on the edge `from` -> `to`, as a function of
   * the state before it. `now` is the value of `Date.now()` when the crawl record is saved.
   */
  function Crawl(s: State, config: Config, web: Web, faults: Faults, now: int, from: string, to: string): (r: (State, Outcome))
    ensures r.1 !in {Crawled, Rejected} ==> r.0 == s
    ensures r.0.ledger - {to} == s.ledger - {to} && s.ledger.Keys <= r.0.ledger.Keys
    ensures to in r.0.ledger ==> r.0.ledger[to] == now || (to in s.ledger && r.0.ledger[to] == s.ledger[to])
    ensures s.linkEvents <= r.0.linkEvents && s.articleEvents <= r.0.articleEvents
    ensures forall k :: |s.linkEvents| <= k < |r.0.linkEvents| ==> r.0.linkEvents[k].from == to
    ensures |r.0.articleEvents| <= |s.articleEvents| + 1
  {
    if from == "" || IsLinkWhiteListed(from, config) then (s, ParentSkipped)
    else if IsBlacklisted(to, config) then (s, ChildBlacklisted)
    else if !faults.lookupFails && to in s.ledger then (s, AlreadyCrawled)
    else match GetArticle(to, web)
      case None => (s, NoArticle)
      case Some(article) =>
        var links := ArticleLinks(web.anchors(article.content), web.parseUrl);
        (Recorded(s, faults, now, to, article, links), if AllPublished(|links|, faults.linkPublishFails) then Crawled else Rejected)
  }

  /** An empty parent, or a parent that matches the whitelist, ends the invocation with no effect (index.js:31-34). */
  lemma ParentGate(s: State, config: Config, web: Web, faults: Faults, now: int, from: string, to: string)
    requires from == "" || exists i :: 0 <= i < |config.whitelist| && config.matches(from, config.whitelist[i])
    ensures Crawl(s, config, web, faults, now, from, to) == (s, ParentSkipped)
  {
  }

  /** A child that matches the blacklist is neither looked up, fetched, recorded nor published (index.js:35-38). */
  lemma BlacklistGate(s: State, config: Config, web: Web, faults: Faults, now: int, from: string, to: string)
    requires from != "" && !IsLinkWhiteListed(from, config)
    requires exists i :: 0 <= i < |config.blacklist| && config.matches(to, config.blacklist[i])
    ensures Crawl(s, config, web, faults, now, from, to) == (s, ChildBlacklisted)
  {
  }

  /**
   * A child the ledger holds is not fetched again, unless the lookup fails: a failed lookup reads as
   * "not crawled" and the pipeline goes on (index.js:40-43, 55-64).
   */
  lemma LedgerGate(s: State, config: Config, web: Web, faults: Faults, now: int, from: string, to: string)
    requires from != "" && !IsLinkWhiteListed(from, config) && !IsBlacklisted(to, config)
    ensures to in s.ledger && !faults.lookupFails <==> Crawl(s, config, web, faults, now, from, to).1 == AlreadyCrawled
  {
  }

  /** With the gates passed, no article means no effect (index.js:44-47). */
  lemma ArticleGate(s: State, config: Config, web: Web, faults: Faults, now: int, from: string, to: string)
    requires from != "" && !IsLinkWhiteListed(from, config) && !IsBlacklisted(to, config)
    requires faults.lookupFails || to !in s.ledger
    ensures GetArticle(to, web).None? <==> Crawl(s, config, web, faults, now, from, to) == (s, NoArticle)
  {
  }

  /**
   * The success path (index.js:48-52, 126-128, 136-150), whatever fails: the link events are those whose
   * publish succeeds, all from `to`; the ledger maps `to` to the save time unless the save fails; the
   * article event is added unless its publish fails. A failed save or article publish is swallowed; only
   * a failed link publish rejects, and with none failing there is one link event per link, in link order.
   */
  lemma SuccessPath(s: State, config: Config, web: Web, faults: Faults, now: int, from: string, to: string, article: Article)
    requires from != "" && !IsLinkWhiteListed(from, config) && !IsBlacklisted(to, config)
    requires faults.lookupFails || to !in s.ledger
    requires GetArticle(to, web) == Some(article)
    ensures var links := ArticleLinks(web.anchors(article.content), web.parseUrl);
      var r := Crawl(s, config, web, faults, now, from, to);
      && r.0.ledger == (if faults.saveFails then s.ledger else s.ledger[to := now])
      && r.0.articleEvents == s.articleEvents + (if faults.articlePublishFails then [] else [ArticleEvent(to, article, links)])
      && r.0.linkEvents == s.linkEvents + Published(links, to, faults.linkPublishFails)
      && r.1 in {Crawled, Rejected}
      && (r.1 == Crawled <==> AllPublished(|links|, faults.linkPublishFails))
      && (r.1 == Crawled ==>
            && |r.0.linkEvents| == |s.linkEvents| + |links|
            && forall k :: 0 <= k < |links| ==> r.0.linkEvents[|s.linkEvents| + k] == LinkEvent(links[k], to))
  {
    var links := ArticleLinks(web.anchors(article.content), web.parseUrl);
    var outcome := if AllPublished(|links|, faults.linkPublishFails) then Crawled else Rejected;
    var r := Crawl(s, config, web, faults, now, from, to);
    CrawlRecords(s, config, web, faults, now, from, to, article);
    assert r.0 == Recorded(s, faults, now, to, article, links) && r.1 == outcome;
    if outcome == Crawled {
      var published := Published(links, to, faults.linkPublishFails);
      PublishedAll(links, to, faults.linkPublishFails);
      assert r.0.linkEvents == s.linkEvents + published;
      forall k | 0 <= k < |links|
        ensures r.0.linkEvents[|s.linkEvents| + k] == LinkEvent(links[k], to)
      {
        assert r.0.linkEvents[|s.linkEvents| + k] == published[k];
      }
    }
  }

  /** Past every gate, the invocation ends in the recorded state. */
  lemma CrawlRecords(s: State, config: Config, web: Web, faults: Faults, now: int, from: string, to: string, article: Article)
    requires from != "" && !IsLinkWhiteListed(from, config) && !IsBlacklisted(to, config)
    requires faults.lookupFails || to !in s.ledger
    requires GetArticle(to, web) == Some(article)
    ensures var links := ArticleLinks(web.anchors(article.content), web.parseUrl);
      Crawl(s, config, web, faults, now, from, to)
        == (Recorded(s, faults, now, to, article, links),
            if AllPublished(|links|, faults.linkPublishFails) then Crawled else Rejected)
  {
  }

  /**
   * Redelivery of an edge whose crawl was recorded is a no-op as long as the ledger can be read:
   * no second fetch, no second record, no duplicate events.
   */
  lemma RedeliveryIsNoop(s: State, config: Config, web: Web, faults: Faults, now: int, from: string, to: string,
                         web2: Web, faults2: Faults, later: int)
    requires Crawl(s, config, web, faults, now, from, to).1 in {Crawled, Rejected}
    requires !faults.saveFails && !faults2.lookupFails
    ensures var s' := Crawl(s, config, web, faults, now, from, to).0;
      Crawl(s', config, web2, faults2, later, from, to) == (s', AlreadyCrawled)
  {
  }

  /** With the ledger unreadable the child is crawled again, even when already recorded (fail-open). */
  lemma FailOpenRecrawls(s: State, config: Config, web: Web, faults: Faults, now: int, from: string, to: string)
    requires from != "" && !IsLinkWhiteListed(from, config) && !IsBlacklisted(to, config)
    requires faults.lookupFails && GetArticle(to, web).Some?
    ensures Crawl(s, config, web, faults, now, from, to).1 in {Crawled, Rejected}
  {
  }

  /** The worker: the ledger and the two topics it writes, with the static configuration it was started with. */
  class Worker {
    const config: Config
    var ledger: map<string, int>
    var linkEvents: seq<LinkEvent>
    var articleEvents: seq<ArticleEvent>

    /** The abstract state the worker's effects are stated in. */
    function Snapshot(): State
      reads this
    {
      State(ledger, linkEvents, articleEvents)
    }

    constructor (config: Config, ledger: map<string, int>)
      ensures this.config == config
      ensures Snapshot() == State(ledger, [], [])
    {
      this.config := config;
      this.ledger := ledger;
      linkEvents := [];
      articleEvents := [];
    }

    /** `isUrlAlreadyCrawled` (index.js:55-64): fail-open, a failed lookup answers "not crawled". */
    method IsUrlAlreadyCrawled(url: string, lookupFails: bool) returns (crawled: bool)
      ensures lookupFails ==> !crawled
      ensures !lookupFails ==> (crawled <==> url in ledger)
    {
      if lookupFails {
        return false;
      }
      crawled := url in ledger;
    }

    /**
     * `publishLinks` (index.js:126-128): one publish per link; `ok` is false when the combined promise
     * rejects, that is when some publish fails.
     */
    method PublishLinks(links: seq<string>, parentUrl: string, fails: nat -> bool) returns (ok: bool)
      modifies this`linkEvents
      ensures linkEvents == old(linkEvents) + Published(links, parentUrl, fails)
      ensures ok <==> AllPublished(|links|, fails)
    {
      ok := true;
      for i := 0 to |links|
        invariant linkEvents == old(linkEvents) + Published(links[..i], parentUrl, fails)
        invariant ok <==> AllPublished(i, fails)
      {
        assert links[..i + 1][..i] == links[..i];
        if fails(i) {
          ok := false;
        } else {
          linkEvents := linkEvents + [LinkEvent(links[i], parentUrl)];
        }
      }
      assert links[..|links|] == links;
    }

    /**
     * `saveArticle` (index.js:136-150): the crawl record and the article event are written concurrently
     * under one try/catch, so each failure is swallowed and neither cancels the other.
     */
    method SaveArticle(url: string, article: Article, links: seq<string>, now: int, saveFails: bool, publishFails: bool)
      modifies this`ledger, this`articleEvents
      ensures ledger == if saveFails then old(ledger) else old(ledger)[url := now]
      ensures articleEvents == old(articleEvents) + if publishFails then [] else [ArticleEvent(url, article, links)]
    {
      if !saveFails {
        ledger := ledger[url := now];
      }
      if !publishFails {
        articleEvents := articleEvents + [ArticleEvent(url, article, links)];
      }
    }

    /** `exports.crawler` (index.js:29-53) on the decoded edge `from` -> `to`. */
    method Crawler(from: string, to: string, web: Web, faults: Faults, now: int) returns (outcome: Outcome)
      modifies this
      ensures (Snapshot(), outcome) == Crawl(old(Snapshot()), config, web, faults, now, from, to)
      ensures outcome !in {Crawled, Rejected} ==> unchanged(this)
    {
      if from == "" || IsLinkWhiteListed(from, config) {
        return ParentSkipped;
      }
      if IsBlacklisted(to, config) {
        return ChildBlacklisted;
      }
      var crawled := IsUrlAlreadyCrawled(to, faults.lookupFails);
      if crawled {
        return AlreadyCrawled;
      }
      var article := GetArticle(to, web);
      if article.None? {
        return NoArticle;
      }
      var links := GetArticleLinks(web.anchors(article.value.content), web.parseUrl);
      var published := PublishLinks(links, to, faults.linkPublishFails);
      SaveArticle(to, article.value, links, now, faults.saveFails, faults.articlePublishFails);
      outcome := if published then Crawled else Rejected;
    }
  }
}
